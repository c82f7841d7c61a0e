/**
 * Line-level logic of prune_include: which lines are include directives,
 * how one line of a file is rewritten in place, and how a file is scanned
 * for candidates.  A file is the sequence of its lines, each line keeping
 * its own trailing newline, exactly as the source's line iterator yields it.
 */
module Lines {

  type Line = string

  /** The characters the pattern class `\s` matches on text (those for which
      Python's `str.isspace` holds). */
  predicate IsSpace(c: char) {
    c == ' ' || ('\t' <= c <= '\r') || ('\U{1C}' <= c <= '\U{1F}')
    || c == '\U{85}' || c == '\U{A0}' || c == '\U{1680}'
    || ('\U{2000}' <= c <= '\U{200A}') || c == '\U{2028}' || c == '\U{2029}'
    || c == '\U{202F}' || c == '\U{205F}' || c == '\U{3000}'
  }

  predicate AllSpace(s: string) {
    forall i :: 0 <= i < |s| ==> IsSpace(s[i])
  }

  /** The token occurs at column k and is followed by a space character. */
  predicate TokenAt(line: Line, token: string, k: nat) {
    k + |token| < |line| && line[k..k + |token|] == token && IsSpace(line[k + |token|])
  }

  /** The meaning of the anchored pattern `^\s*TOKEN\s+` for a literal token:
      some all-space prefix is followed by the token and one more space. */
  ghost predicate PatternMatch(line: Line, token: string) {
    exists k: nat :: k <= |line| && AllSpace(line[..k]) && TokenAt(line, token, k)
  }

  /** Backtracking search for the token after column k, skipping spaces. */
  function MatchFrom(line: Line, token: string, k: nat): bool
    requires k <= |line|
    decreases |line| - k
  {
    TokenAt(line, token, k) || (k < |line| && IsSpace(line[k]) && MatchFrom(line, token, k + 1))
  }

  /** The line-match test of the scanner (prune_include.py:149). */
  predicate IsDirective(line: Line, token: string) {
    MatchFrom(line, token, 0)
  }

  /** A successful search names the column of the token. */
  lemma {:induction false} MatchFromWitness(line: Line, token: string, k: nat) returns (j: nat)
    requires k <= |line| && MatchFrom(line, token, k)
    ensures k <= j <= |line| && AllSpace(line[k..j]) && TokenAt(line, token, j)
    decreases |line| - k
  {
    if TokenAt(line, token, k) {
      j := k;
      assert AllSpace(line[k..k]);
    } else {
      j := MatchFromWitness(line, token, k + 1);
      assert forall i :: 0 <= i < j - k ==> line[k..j][i] == if i == 0 then line[k] else line[k + 1..j][i - 1];
    }
  }

  /** The search finds every token that follows spaces only. */
  lemma {:induction false} MatchFromComplete(line: Line, token: string, k: nat, j: nat)
    requires k <= j <= |line| && AllSpace(line[k..j]) && TokenAt(line, token, j)
    ensures MatchFrom(line, token, k)
    decreases j - k
  {
    if k < j {
      assert line[k..j][0] == line[k];
      assert line[k + 1..j] == line[k..j][1..];
      MatchFromComplete(line, token, k + 1, j);
    }
  }

  lemma MatchFromFinds(line: Line, token: string, k: nat)
    requires k <= |line|
    ensures MatchFrom(line, token, k) <==>
              exists j: nat :: k <= j <= |line| && AllSpace(line[k..j]) && TokenAt(line, token, j)
  {
    if MatchFrom(line, token, k) {
      var j := MatchFromWitness(line, token, k);
    }
    forall j: nat | k <= j <= |line| && AllSpace(line[k..j]) && TokenAt(line, token, j)
      ensures MatchFrom(line, token, k)
    {
      MatchFromComplete(line, token, k, j);
    }
  }

  /** The computable test agrees with the pattern's meaning, in both directions. */
  lemma DirectiveIsPatternMatch(line: Line, token: string)
    ensures IsDirective(line, token) <==> PatternMatch(line, token)
  {
    MatchFromFinds(line, token, 0);
    forall j: nat | j <= |line| ensures line[0..j] == line[..j] { }
  }

  /** A line rewritten by the comment prefix is never a candidate again, as
      long as the prefix starts with a non-space character the token does not
      start with (true of the default prefix `// ` with the default token
      `#include`). */
  lemma CommentedIsNoDirective(line: Line, token: string, comment: string)
    requires |comment| > 0 && !IsSpace(comment[0])
    requires |token| == 0 || token[0] != comment[0]
    ensures !IsDirective(comment + line, token)
  {
    var x := comment + line;
    assert x[0] == comment[0];
  }

  /** The file after `inplace_insert`: line number n (1-based) holds text,
      every other line is copied.  A line number outside the file changes
      nothing. */
  function Replaced(lines: seq<Line>, n: int, text: Line): (r: seq<Line>)
    ensures |r| == |lines|
    ensures forall i :: 0 <= i < |lines| ==> r[i] == (if i + 1 == n then text else lines[i])
  {
    if lines == [] then []
    else Replaced(lines[..|lines| - 1], n, text) + [if |lines| == n then text else lines[|lines| - 1]]
  }

  /** The loop of `inplace_insert` (prune_include.py:98-103): stream the
      lines, emitting the replacement at the numbered line. */
  method RewriteLines(lines: seq<Line>, lineNumber: nat, replaceLine: Line) returns (written: seq<Line>)
    ensures written == Replaced(lines, lineNumber, replaceLine)
  {
    written := [];
    for i := 0 to |lines|
      invariant written == Replaced(lines[..i], lineNumber, replaceLine)
    {
      assert lines[..i + 1][..i] == lines[..i];
      if i + 1 == lineNumber {
        written := written + [replaceLine];
      } else {
        written := written + [lines[i]];
      }
    }
    assert lines[..|lines|] == lines;
  }

  /** Rewriting a line and then writing its original text back restores the
      file exactly. */
  lemma RollbackExact(lines: seq<Line>, n: nat, text: Line)
    requires 1 <= n <= |lines|
    ensures Replaced(Replaced(lines, n, text), n, lines[n - 1]) == lines
  {
    var m := Replaced(lines, n, text);
    var r := Replaced(m, n, lines[n - 1]);
    forall i | 0 <= i < |lines| ensures r[i] == lines[i] {
      if i + 1 != n {
        assert r[i] == m[i];
      }
    }
  }

  /** A line number outside the file leaves it as it is. */
  lemma ReplacedOutside(lines: seq<Line>, n: int, text: Line)
    requires n < 1 || n > |lines|
    ensures Replaced(lines, n, text) == lines
  {
    var r := Replaced(lines, n, text);
    assert forall i :: 0 <= i < |lines| ==> r[i] == lines[i];
  }

  predicate Increasing(s: seq<nat>) {
    forall i, j :: 0 <= i < j < |s| ==> s[i] < s[j]
  }

  predicate Decreasing(s: seq<nat>) {
    forall i, j :: 0 <= i < j < |s| ==> s[i] > s[j]
  }

  /** The scanner's two outputs: the candidate line numbers in file order
      and the verbatim text of each (`include_lines`, `backup_lines`). */
  datatype Scan = Scan(includeLines: seq<nat>, backupLines: map<nat, Line>)

  /** The candidates of a file, read top to bottom. */
  function ScanLines(lines: seq<Line>, token: string): Scan {
    if lines == [] then Scan([], map[])
    else
      var prior := ScanLines(lines[..|lines| - 1], token);
      var last := lines[|lines| - 1];
      if IsDirective(last, token)
      then Scan(prior.includeLines + [|lines|], prior.backupLines[|lines| := last])
      else prior
  }

  /** What the scanner promises: the line numbers are 1-based and strictly
      increasing, they are exactly the directive lines, and the backup of
      each is the line's verbatim text. */
  ghost predicate ScanOf(scan: Scan, lines: seq<Line>, token: string) {
    Increasing(scan.includeLines) &&
    (forall n :: n in scan.includeLines <==> 1 <= n <= |lines| && IsDirective(lines[n - 1], token)) &&
    (forall n :: n in scan.backupLines <==> n in scan.includeLines) &&
    (forall n :: n in scan.backupLines ==> 1 <= n <= |lines| && scan.backupLines[n] == lines[n - 1])
  }

  /** The scanned line numbers are exactly the directive lines. */
  lemma {:induction false} ScanLinesMembers(lines: seq<Line>, token: string)
    ensures forall n :: n in ScanLines(lines, token).includeLines <==> 1 <= n <= |lines| && IsDirective(lines[n - 1], token)
  {
    if lines != [] {
      var k := |lines|;
      var init := lines[..k - 1];
      ScanLinesMembers(init, token);
      assert forall i :: 0 <= i < k - 1 ==> init[i] == lines[i];
    }
  }

  /** Each scanned line number has a backup, and the backup is the line's text. */
  lemma {:induction false} ScanLinesBackup(lines: seq<Line>, token: string)
    ensures forall n :: n in ScanLines(lines, token).backupLines <==> n in ScanLines(lines, token).includeLines
    ensures forall n :: n in ScanLines(lines, token).backupLines ==>
                          1 <= n <= |lines| && ScanLines(lines, token).backupLines[n] == lines[n - 1]
  {
    if lines != [] {
      var k := |lines|;
      var init := lines[..k - 1];
      ScanLinesBackup(init, token);
      assert forall i :: 0 <= i < k - 1 ==> init[i] == lines[i];
      var prior := ScanLines(init, token);
      if IsDirective(lines[k - 1], token) {
        var scan := ScanLines(lines, token);
        assert scan == Scan(prior.includeLines + [k], prior.backupLines[k := lines[k - 1]]);
        forall n ensures n in scan.backupLines <==> n in scan.includeLines {
          assert n in prior.includeLines + [k] <==> n in prior.includeLines || n == k;
        }
        forall n | n in scan.backupLines ensures 1 <= n <= k && scan.backupLines[n] == lines[n - 1] {
          if n != k {
            assert n in prior.backupLines;
          }
        }
      }
    }
  }

  /** The scanned line numbers are strictly increasing. */
  lemma {:induction false} ScanLinesIncreasing(lines: seq<Line>, token: string)
    ensures Increasing(ScanLines(lines, token).includeLines)
  {
    if lines != [] {
      var k := |lines|;
      var init := lines[..k - 1];
      ScanLinesIncreasing(init, token);
      ScanLinesMembers(init, token);
      var prior := ScanLines(init, token);
      if IsDirective(lines[k - 1], token) {
        var nums := prior.includeLines + [k];
        forall i, j | 0 <= i < j < |nums| ensures nums[i] < nums[j] {
          if j == |nums| - 1 {
            assert nums[i] in prior.includeLines;
          }
        }
      }
    }
  }

  lemma ScanLinesFacts(lines: seq<Line>, token: string)
    ensures ScanOf(ScanLines(lines, token), lines, token)
  {
    ScanLinesMembers(lines, token);
    ScanLinesBackup(lines, token);
    ScanLinesIncreasing(lines, token);
  }

  /** The scanning loop of `process_file` (prune_include.py:143-152). */
  method CollectCandidates(lines: seq<Line>, token: string)
    returns (includeLines: seq<nat>, backupLines: map<nat, Line>)
    ensures Scan(includeLines, backupLines) == ScanLines(lines, token)
    ensures ScanOf(Scan(includeLines, backupLines), lines, token)
  {
    includeLines, backupLines := [], map[];
    for i := 0 to |lines|
      invariant Scan(includeLines, backupLines) == ScanLines(lines[..i], token)
    {
      assert lines[..i + 1][..i] == lines[..i];
      if IsDirective(lines[i], token) {
        var lineNum := i + 1;
        includeLines := includeLines + [lineNum];
        backupLines := backupLines[lineNum := lines[i]];
      }
    }
    assert lines[..|lines|] == lines;
    ScanLinesFacts(lines, token);
  }

  /** The order `reversed` iterates a sequence in. */
  function Reverse(s: seq<nat>): (r: seq<nat>)
    ensures |r| == |s|
    ensures forall i :: 0 <= i < |s| ==> r[i] == s[|s| - 1 - i]
  {
    if s == [] then [] else Reverse(s[1..]) + [s[0]]
  }

  /** The reverse pass visits candidates bottom-up. */
  lemma ReverseOfIncreasing(s: seq<nat>)
    requires Increasing(s)
    ensures Decreasing(Reverse(s))
    ensures forall n :: n in Reverse(s) <==> n in s
  {
    var r := Reverse(s);
    forall n | n in s ensures n in r {
      var i :| 0 <= i < |s| && s[i] == n;
      assert r[|s| - 1 - i] == n;
    }
  }
}
