/**
 * Concrete runs of the model, with the default token `#include` and
 * comment prefix `// `.
 */
module Scenarios {
  import opened Lines
  import opened Pruning

  const Token: string := "#include"
  const Comment: string := "// "

  const IncA: Line := "#include <a.h>\n"
  const IncB: Line := "  #include\t\"b.h\"\n"

  /** Directives may be indented, and the token may be followed by any space. */
  lemma DirectiveExamples()
    ensures IsDirective(IncA, Token) && IsDirective(IncB, Token)
  {
    assert TokenAt(IncA, Token, 0) by { assert IncA[0..8] == Token; }
    assert TokenAt(IncB, Token, 2) by { assert IncB[2..10] == Token; }
  }

  /** A longer word, a token with no space after it and a commented line are
      not directives. */
  lemma NonDirectiveExamples()
    ensures !IsDirective("#includes <a.h>\n", Token) && !IsDirective("#include", Token)
    ensures !IsDirective(Comment + IncA, Token) && !IsDirective(Comment + IncB, Token)
  {
    var w := "#includes <a.h>\n";
    assert w[0..8] == Token && w[8] == 's';
    CommentedIsNoDirective(IncA, Token, Comment);
    CommentedIsNoDirective(IncB, Token, Comment);
  }

  /** A build that succeeds once and never again: the run passes the
      baseline gate, the first trial fails, and so does the restore. */
  lemma FlakyBuildAborts()
    ensures var s := State(map["m.cpp" := [IncA]], false, 0, [], []);
            var st := PruneAll(s, (i: nat, c: Files) => i == 0, ["m.cpp"], Token, Comment);
            st.result == Fatal(RestoreFailed("m.cpp", 1)) &&
            st.after.log == [Attempt("m.cpp", 1)] && st.after.files == s.files && !st.after.artifact
  {
    DirectiveExamples();
    var s := State(map["m.cpp" := [IncA]], false, 0, [], []);
    var oracle := (i: nat, c: Files) => i == 0;
    var init := Initialize(s, oracle);
    ScanExamples();
    PruneFilesUnfold(init.after, oracle, ["m.cpp"], Token, Comment);
    var first := ProcessFile(init.after, oracle, "m.cpp", true, Token, Comment);
    PassUnfold(init.after, oracle, "m.cpp", [1], map[1 := IncA], Comment, false);
    TrialRollback(init.after, oracle, "m.cpp", 1, IncA, Comment);
    assert first.result == Fatal(RestoreFailed("m.cpp", 1));
  }

  /** A build of a two-line m.cpp that needs one of its two includes, either
      one: each can go alone, but not both. */
  const EitherSuffices: Oracle :=
    (i: nat, c: Files) => "m.cpp" in c && |c["m.cpp"]| == 2 && (c["m.cpp"][0] == IncA || c["m.cpp"][1] == IncB)

  lemma EitherSufficesExample()
    ensures EitherSuffices(0, map["m.cpp" := [Comment + IncA, IncB]])
    ensures EitherSuffices(0, map["m.cpp" := [IncA, Comment + IncB]])
    ensures !EitherSuffices(0, map["m.cpp" := [Comment + IncA, Comment + IncB]])
  {
    assert Comment + IncA != IncA by { assert (Comment + IncA)[0] != IncA[0]; }
    assert Comment + IncB != IncB by { assert (Comment + IncB)[0] != IncB[0]; }
  }

  lemma ScanExamples()
    ensures ScanLines([IncA], Token) == Scan([1], map[1 := IncA])
    ensures ScanLines([IncA, IncB], Token) == Scan([1, 2], map[1 := IncA, 2 := IncB])
    ensures ScanLines([IncA, Comment + IncB], Token) == Scan([1], map[1 := IncA])
  {
    DirectiveExamples();
    NonDirectiveExamples();
    assert [IncA][..0] == [];
    assert ScanLines([IncA], Token) == Scan([1], map[1 := IncA]);
    assert [IncA, IncB][..1] == [IncA];
    assert [IncA, Comment + IncB][..1] == [IncA];
  }

  /** Commenting out the second include still builds: it is removed. */
  lemma RemoveSecondExample(s0: State)
    requires s0.files == map["m.cpp" := [IncA, IncB]]
    ensures Trial(s0, EitherSuffices, "m.cpp", 2, IncB, Comment) ==
              Step(Ok(true), State(map["m.cpp" := [IncA, Comment + IncB]], true, s0.builds + 1,
                                   s0.log + [Attempt("m.cpp", 2)], s0.removed + [Attempt("m.cpp", 2)]))
  {
    assert Replaced([IncA, IncB], 2, Comment + IncB) == [IncA, Comment + IncB];
  }

  /** With the second include already gone, commenting out the first breaks
      the build: it is written back and the rebuild succeeds. */
  lemma KeepFirstExample(s1: State)
    requires s1.files == map["m.cpp" := [IncA, Comment + IncB]]
    ensures Trial(s1, EitherSuffices, "m.cpp", 1, IncA, Comment) ==
              Step(Ok(false), s1.(artifact := true, builds := s1.builds + 2, log := s1.log + [Attempt("m.cpp", 1)]))
  {
    assert Replaced([IncA, Comment + IncB], 1, Comment + IncA) == [Comment + IncA, Comment + IncB];
    TrialRollback(s1, EitherSuffices, "m.cpp", 1, IncA, Comment);
  }

  /** The reverse pass over [IncA, IncB]: line 2 goes, line 1 stays. */
  lemma ReversePassExample(s0: State)
    requires s0.files == map["m.cpp" := [IncA, IncB]]
    ensures ProcessFile(s0, EitherSuffices, "m.cpp", true, Token, Comment) ==
              Step(Ok(true), State(map["m.cpp" := [IncA, Comment + IncB]], true, s0.builds + 3,
                                   s0.log + [Attempt("m.cpp", 2), Attempt("m.cpp", 1)],
                                   s0.removed + [Attempt("m.cpp", 2)]))
  {
    ScanExamples();
    assert Reverse([1, 2]) == [2, 1];
    var backup := map[1 := IncA, 2 := IncB];
    RemoveSecondExample(s0);
    var s1 := Trial(s0, EitherSuffices, "m.cpp", 2, IncB, Comment).after;
    KeepFirstExample(s1);
    PassUnfold(s0, EitherSuffices, "m.cpp", [2, 1], backup, Comment, false);
    PassUnfold(s1, EitherSuffices, "m.cpp", [1], backup, Comment, true);
    assert [2, 1][1..] == [1];
  }

  /** The forward pass over [IncA, // IncB]: only line 1 is a candidate, and it stays. */
  lemma ForwardPassExample(s2: State)
    requires s2.files == map["m.cpp" := [IncA, Comment + IncB]]
    ensures ProcessFile(s2, EitherSuffices, "m.cpp", false, Token, Comment) ==
              Step(Ok(false), s2.(artifact := true, builds := s2.builds + 2, log := s2.log + [Attempt("m.cpp", 1)]))
  {
    ScanExamples();
    KeepFirstExample(s2);
    PassUnfold(s2, EitherSuffices, "m.cpp", [1], map[1 := IncA], Comment, false);
  }

  /** Two includes either of which may go, but not both: the reverse pass
      removes the lower one and keeps the upper, so exactly one is removed,
      and the forward pass runs and tries the upper once more. */
  lemma TwoPassExample()
    ensures var s := State(map["m.cpp" := [IncA, IncB]], false, 0, [], []);
            var st := PruneAll(s, EitherSuffices, ["m.cpp"], Token, Comment);
            st.result == Ok(()) && st.after.files["m.cpp"] == [IncA, Comment + IncB] &&
            st.after.log == [Attempt("m.cpp", 2), Attempt("m.cpp", 1), Attempt("m.cpp", 1)] &&
            st.after.removed == [Attempt("m.cpp", 2)]
  {
    var s := State(map["m.cpp" := [IncA, IncB]], false, 0, [], []);
    var s0 := Initialize(s, EitherSuffices).after;
    ReversePassExample(s0);
    var s2 := ProcessFile(s0, EitherSuffices, "m.cpp", true, Token, Comment).after;
    ForwardPassExample(s2);
    PruneFileUnfold(s0, EitherSuffices, "m.cpp", Token, Comment);
    PruneFilesUnfold(s0, EitherSuffices, ["m.cpp"], Token, Comment);
  }
}
