/**
 * The project folder as prune_include changes it: the source files are
 * rewritten in place, the build artifact appears and disappears, and the
 * builder is run again and again.  Each method follows its function of
 * Pruning step by step, so everything proved there holds of a run of these
 * methods.
 */
module Workspace {
  import opened Lines
  import opened Pruning

  class Workspace {
    /** The text of every source file, line by line. */
    var files: Files
    /** Whether the artifact file exists. */
    var artifact: bool
    /** How many times the builder has run. */
    var builds: nat
    /** The lines tried so far, in the order their "Testing line" message appears. */
    ghost var log: seq<Attempt>
    /** The lines reported removed so far. */
    ghost var removed: seq<Attempt>
    /** Whether the builder, run for the i-th time on the given contents, creates the artifact. */
    const oracle: Oracle

    ghost function State(): Pruning.State
      reads this
    {
      Pruning.State(files, artifact, builds, log, removed)
    }

    constructor (files0: Files, artifact0: bool, oracle0: Oracle)
      ensures State() == Pruning.State(files0, artifact0, 0, [], []) && oracle == oracle0
    {
      files, artifact, builds, log, removed, oracle := files0, artifact0, 0, [], [], oracle0;
    }

    /** `remove_artifact` (prune_include.py:87-93): a missing artifact is not an error. */
    method RemoveArtifact()
      modifies this
      ensures State() == Pruning.RemoveArtifact(old(State()))
    {
      artifact := false;
    }

    /** `build_project` (prune_include.py:82-84): run the builder and check
        nothing; only the artifact tells whether it succeeded. */
    method BuildProject()
      modifies this
      ensures State() == Build(old(State()), oracle)
    {
      artifact := artifact || oracle(builds, files);
      builds := builds + 1;
    }

    /** `inplace_insert` (prune_include.py:96-103). */
    method InplaceInsert(file: Path, lineNumber: nat, replaceLine: Line)
      requires file in files
      modifies this
      ensures State() == Rewrite(old(State()), file, lineNumber, replaceLine)
    {
      var written := RewriteLines(files[file], lineNumber, replaceLine);
      files := files[file := written];
    }

    /** `prune_include` (prune_include.py:106-129).  The exit of the script
        on a failed restore is the result Fatal. */
    method PruneInclude(file: Path, lineNumber: nat, backupLine: Line, comment: string) returns (r: Outcome<bool>)
      requires file in files
      modifies this
      ensures Step(r, State()) == Trial(old(State()), oracle, file, lineNumber, backupLine, comment)
    {
      ghost var s := State();
      ghost var mutated := Replaced(files[file], lineNumber, comment + backupLine);
      log := log + [Attempt(file, lineNumber)];
      RemoveArtifact();
      InplaceInsert(file, lineNumber, comment + backupLine);
      BuildProject();
      if artifact {
        r := Ok(true);
        removed := removed + [Attempt(file, lineNumber)];
        assert State() == Pruning.State(s.files[file := mutated], true, s.builds + 1, s.log + [Attempt(file, lineNumber)],
                                        s.removed + [Attempt(file, lineNumber)]);
      } else {
        InplaceInsert(file, lineNumber, backupLine);
        BuildProject();
        r := if artifact then Ok(false) else Fatal(RestoreFailed(file, lineNumber));
        assert files == s.files[file := Replaced(mutated, lineNumber, backupLine)];
      }
    }

    /** `process_file` (prune_include.py:132-160): collect the candidates,
        then try each in the chosen order. */
    method ProcessFile(file: Path, isReversed: bool, token: string, comment: string) returns (r: Outcome<bool>)
      requires file in files
      modifies this
      ensures Step(r, State()) == Pruning.ProcessFile(old(State()), oracle, file, isReversed, token, comment)
    {
      var includeLines, backupLines := CollectCandidates(files[file], token);
      ReverseOfIncreasing(includeLines);
      var order := if isReversed then Reverse(includeLines) else includeLines;
      assert order == PassOrder(ScanLines(old(files)[file], token), isReversed);
      ghost var spec := Pruning.ProcessFile(old(State()), oracle, file, isReversed, token, comment);
      assert spec == Pass(State(), oracle, file, order, backupLines, comment, false);
      var wasChanged := false;
      var k := 0;
      while k < |order|
        invariant 0 <= k <= |order| && file in files
        invariant forall n :: n in order ==> n in backupLines
        invariant spec == Pass(State(), oracle, file, order[k..], backupLines, comment, wasChanged)
      {
        ghost var prev := State();
        ghost var trial := Trial(prev, oracle, file, order[k], backupLines[order[k]], comment);
        PassUnfold(prev, oracle, file, order[k..], backupLines, comment, wasChanged);
        assert order[k..][1..] == order[k + 1..];
        var newIsChanged := PruneInclude(file, order[k], backupLines[order[k]], comment);
        assert trial == Step(newIsChanged, State());
        if newIsChanged.Fatal? {
          return newIsChanged;
        }
        wasChanged := wasChanged || newIsChanged.value;
        k := k + 1;
      }
      r := Ok(wasChanged);
    }

    /** `initialize` (prune_include.py:163-184).  Touching the files only
        changes their timestamps, which this model does not hold. */
    method Initialize() returns (r: Outcome<()>)
      modifies this
      ensures Step(r, State()) == Pruning.Initialize(old(State()), oracle)
    {
      RemoveArtifact();
      BuildProject();
      if !artifact {
        return Fatal(BaselineFailed);
      }
      r := Ok(());
    }

    /** `main` (prune_include.py:192-213) from the discovered file list on:
        the two gates, then for each file a reverse pass, and a forward pass
        when the reverse pass removed a line. */
    method PruneProject(fileList: seq<Path>, token: string, comment: string) returns (r: Outcome<()>)
      requires forall f :: f in fileList ==> f in files
      modifies this
      ensures Step(r, State()) == PruneAll(old(State()), oracle, fileList, token, comment)
    {
      if fileList == [] {
        return Fatal(NoFiles);
      }
      r := Initialize();
      if r.Fatal? {
        return;
      }
      ghost var keys := files.Keys;
      for i := 0 to |fileList|
        invariant files.Keys == keys && forall f :: f in fileList ==> f in files
        invariant PruneAll(old(State()), oracle, fileList, token, comment) ==
                  PruneFiles(State(), oracle, fileList[i..], token, comment)
      {
        var file := fileList[i];
        ghost var s := State();
        PruneFilesUnfold(s, oracle, fileList[i..], token, comment);
        assert fileList[i..][1..] == fileList[i + 1..];
        var wasChanged := ProcessFile(file, true, token, comment);
        if wasChanged.Fatal? {
          return Fatal(wasChanged.failure);
        }
        if wasChanged.value {
          var again := ProcessFile(file, false, token, comment);
          if again.Fatal? {
            return Fatal(again.failure);
          }
        }
        assert State() == PruneFile(s, oracle, file, token, comment).after;
      }
      r := Ok(());
    }
  }
}
