/**
  The scenarios of the repository's tests, restated as lemmas about the model on the
  short program text "12 -24", with the matches the regular expressions of
  the three sample token types have in that text written out by hand.
 */
module Scenarios {
  import opened Wrappers
  import opened Candidates
  import opened Discovery
  import opened Ordering
  import opened Filtering
  import opened Lexing

  const Whitespace := TokenType("whitespace", "[ \t\n]+")
  const UInt := TokenType("uint", "[0-9]+")
  const Int := TokenType("int", "-?[0-9]+")

  const Program := "12 -24"

  /** The matches of the three sample patterns in `Program`, left to right:
      the space at 2; the digit runs "12" and "24"; "12" and "-24". */
  function SampleEngine(p: string, s: string): Option<seq<Span>>
  {
    if s != Program then Some([])
    else if p == Whitespace.pat then Some([Span(2, 1)])
    else if p == UInt.pat then Some([Span(0, 2), Span(4, 2)])
    else if p == Int.pat then Some([Span(0, 2), Span(3, 3)])
    else Some([])
  }

  lemma SampleEngineAnswers()
    ensures SampleEngine(Whitespace.pat, Program) == Some([Span(2, 1)])
    ensures SampleEngine(UInt.pat, Program) == Some([Span(0, 2), Span(4, 2)])
    ensures SampleEngine(Int.pat, Program) == Some([Span(0, 2), Span(3, 3)])
  {
    assert UInt.pat[1] != Whitespace.pat[1];
    assert |Int.pat| != |Whitespace.pat| && |Int.pat| != |UInt.pat|;
  }

  lemma SampleEngineSound()
    ensures SoundOn(SampleEngine, Program)
  {
  }

  // The candidates of the sample program, named by type and span.
  const Ws21 := Candidate(0, Program, 2, 1)
  const U02 := Candidate(1, Program, 0, 2)
  const U42 := Candidate(1, Program, 4, 2)
  const I02 := Candidate(2, Program, 0, 2)
  const I33 := Candidate(2, Program, 3, 3)

  lemma SampleDiscovery()
    ensures Discover([Whitespace, UInt, Int], Program, SampleEngine, 3) == Scan([Ws21, U02, U42, I02, I33], None)
  {
    var types := [Whitespace, UInt, Int];
    SampleEngineAnswers();
    assert FromMatches(0, Program, [Span(2, 1)]) == [Ws21];
    assert FromMatches(1, Program, [Span(0, 2), Span(4, 2)]) == [U02, U42];
    assert FromMatches(2, Program, [Span(0, 2), Span(3, 3)]) == [I02, I33];
    assert Discover(types, Program, SampleEngine, 1) == Scan([Ws21], None);
    assert Discover(types, Program, SampleEngine, 2) == Scan([Ws21, U02, U42], None);
  }

  // The sort of the sample candidates, one insertion at a time.

  lemma SortTail()
    ensures SortByStart([I02, I33]) == [I02, I33]
  {
    assert [I02, I33][1..] == [I33];
    assert SortByStart([I33]) == [I33];
  }

  lemma SortUnfold(c: Candidate, cs: seq<Candidate>)
    ensures SortByStart([c] + cs) == Insert(c, SortByStart(cs))
  {
    assert ([c] + cs)[1..] == cs;
  }

  lemma InsertU42()
    ensures Insert(U42, [I02, I33]) == [I02, I33, U42]
  {
    InsertFront(U42, []);
    InsertPast(U42, [I33]);
    assert [I33][1..] == [];
    InsertPast(U42, [I02, I33]);
    assert [I02, I33][1..] == [I33];
  }

  lemma InsertU02()
    ensures Insert(U02, [I02, I33, U42]) == [U02, I02, I33, U42]
  {
    InsertFront(U02, [I02, I33, U42]);
  }

  // Inserting a candidate into short sorted lists, one position at a time;
  // each list fact is proved on its own, away from the `Insert` terms.

  lemma SortedThree(b: Candidate, d: Candidate, e: Candidate)
    requires b.start <= d.start <= e.start
    ensures Sorted([d, e]) && Sorted([b, d, e])
  {
  }

  lemma SortedFour(a: Candidate, b: Candidate, d: Candidate, e: Candidate)
    requires a.start <= b.start <= d.start <= e.start
    ensures Sorted([a, b, d, e])
  {
  }

  lemma ListFacts(a: Candidate, b: Candidate, c: Candidate, d: Candidate, e: Candidate)
    ensures [c] + [d, e] == [c, d, e]
    ensures [b] + [d, e] == [b, d, e] && [b, d, e][1..] == [d, e]
    ensures [b] + [c, d, e] == [b, c, d, e]
    ensures [a] + [b, d, e] == [a, b, d, e] && [a, b, d, e][1..] == [b, d, e]
    ensures [a] + [b, c, d, e] == [a, b, c, d, e]
  {
  }

  lemma InsertFirstOfTwo(c: Candidate, d: Candidate, e: Candidate)
    requires c.start <= d.start <= e.start
    ensures Insert(c, [d, e]) == [c, d, e]
  {
    SortedThree(c, d, e);
    InsertFront(c, [d, e]);
    ListFacts(c, c, c, d, e);
  }

  lemma InsertSecondOfThree(b: Candidate, c: Candidate, d: Candidate, e: Candidate)
    requires b.start < c.start <= d.start <= e.start
    ensures Insert(c, [b, d, e]) == [b, c, d, e]
  {
    SortedThree(b, d, e);
    InsertFirstOfTwo(c, d, e);
    ListFacts(b, b, c, d, e);
    InsertPast(c, [b, d, e]);
  }

  lemma InsertThirdOfFour(a: Candidate, b: Candidate, c: Candidate, d: Candidate, e: Candidate)
    requires a.start <= b.start < c.start <= d.start <= e.start
    ensures Insert(c, [a, b, d, e]) == [a, b, c, d, e]
  {
    SortedFour(a, b, d, e);
    InsertSecondOfThree(b, c, d, e);
    ListFacts(a, b, c, d, e);
    InsertPast(c, [a, b, d, e]);
  }

  lemma InsertWs21()
    ensures Insert(Ws21, [U02, I02, I33, U42]) == [U02, I02, Ws21, I33, U42]
  {
    InsertThirdOfFour(U02, I02, Ws21, I33, U42);
  }

  /** The stable sort puts uint's "12" ahead of int's "12": discovered first. */
  lemma SampleSort()
    ensures SortByStart([Ws21, U02, U42, I02, I33]) == [U02, I02, Ws21, I33, U42]
  {
    SortTail();
    SortUnfold(U42, [I02, I33]);
    InsertU42();
    SortUnfold(U02, [U42, I02, I33]);
    InsertU02();
    SortUnfold(Ws21, [U02, U42, I02, I33]);
    InsertWs21();
  }

  /** The sweep: uint's "12" beats int's "12" (equal length, first in the
      list), the pairs touching at 2 and 3 move it on, and int's "-24" beats
      uint's "24" inside it (longer). */
  lemma SampleSweep()
    ensures Filter([U02, I02, Ws21, I33, U42], Program) == Swept([U02, Ws21, I33], None)
  {
    var sorted := [U02, I02, Ws21, I33, U42];
    var once := [U02, Ws21, I33, U42];
    var twice := [U02, Ws21, I33];
    assert Erase(sorted, 1) == once;
    assert Erase(once, 3) == twice;
    assert Sweep(twice, 2, Program) == Swept(twice, None);
    assert Sweep(once, 2, Program) == Sweep(twice, 2, Program);
    assert Sweep(once, 1, Program) == Sweep(once, 2, Program);
    assert Sweep(once, 0, Program) == Sweep(once, 1, Program);
    assert Sweep(sorted, 0, Program) == Sweep(once, 0, Program);
  }

  lemma SampleTokens()
    ensures Convertible([Whitespace, UInt, Int], [U02, Ws21, I33])
    ensures Convert([Whitespace, UInt, Int], [U02, Ws21, I33]) == [Token(UInt, "12"), Token(Whitespace, " "), Token(Int, "-24")]
  {
    assert Program[0..2] == "12" && Program[2..3] == " " && Program[3..6] == "-24";
  }

  /** Whitespace, uint and int registered in that order: "12" is claimed by
      both number types with equal length and goes to uint, registered first;
      "-24" is longer than the "24" inside it and goes to int. */
  lemma TieBreakScenario()
    ensures var types := [Whitespace, UInt, Int];
      var found := Discover(types, Program, SampleEngine, 3).found;
      var f := Filter(SortByStart(found), Program);
      && f == Swept([U02, Ws21, I33], None)
      && Convertible(types, f.kept)
      && Convert(types, f.kept) == [Token(UInt, "12"), Token(Whitespace, " "), Token(Int, "-24")]
  {
    SampleDiscovery();
    SampleSort();
    SampleSweep();
    SampleTokens();
  }

  // The candidates when only uint and int are registered (slots 0 and 1).
  const V02 := Candidate(0, Program, 0, 2)
  const V42 := Candidate(0, Program, 4, 2)
  const J02 := Candidate(1, Program, 0, 2)
  const J33 := Candidate(1, Program, 3, 3)

  lemma NumbersDiscovery()
    ensures Discover([UInt, Int], Program, SampleEngine, 2) == Scan([V02, V42, J02, J33], None)
  {
    var types := [UInt, Int];
    SampleEngineAnswers();
    assert FromMatches(0, Program, [Span(0, 2), Span(4, 2)]) == [V02, V42];
    assert FromMatches(1, Program, [Span(0, 2), Span(3, 3)]) == [J02, J33];
    assert Discover(types, Program, SampleEngine, 1) == Scan([V02, V42], None);
  }

  lemma NumbersSortTail()
    ensures SortByStart([J02, J33]) == [J02, J33]
  {
    assert [J02, J33][1..] == [J33];
    assert SortByStart([J33]) == [J33];
  }

  lemma InsertV42()
    ensures Insert(V42, [J02, J33]) == [J02, J33, V42]
  {
    assert Insert(V42, [J33]) == [J33, V42];
  }

  lemma InsertV02()
    ensures Insert(V02, [J02, J33, V42]) == [V02, J02, J33, V42]
  {
  }

  lemma NumbersSort()
    ensures SortByStart([V02, V42, J02, J33]) == [V02, J02, J33, V42]
  {
    NumbersSortTail();
    SortUnfold(V42, [J02, J33]);
    InsertV42();
    SortUnfold(V02, [V42, J02, J33]);
    InsertV02();
  }

  lemma NumbersSweep()
    ensures Filter([V02, J02, J33, V42], Program) == Swept([V02, J33, V42], Some(Unmatched(2, 1, " ")))
  {
    var sorted := [V02, J02, J33, V42];
    var once := [V02, J33, V42];
    assert Erase(sorted, 1) == once;
    assert Program[2..3] == " ";
    assert Sweep(once, 0, Program) == Swept(once, Some(Unmatched(2, 1, " ")));
    assert Sweep(sorted, 0, Program) == Sweep(once, 0, Program);
  }

  /** Only uint and int registered: after "12" wins over int's "12", the
      space at offset 2 lies between "12" and "-24" and is reported as an
      unmatched span of length 1. */
  lemma UnmatchedScenario()
    ensures var found := Discover([UInt, Int], Program, SampleEngine, 2).found;
      Filter(SortByStart(found), Program).error == Some(Unmatched(2, 1, " "))
  {
    NumbersDiscovery();
    NumbersSort();
    NumbersSweep();
  }

  /** The sweep does not prove full coverage: with types matching "a", "bc"
      and "cde" in "abcde", "bc" touches "a" and loses to the longer "cde",
      which leaves "b" covered by no survivor, and no error is raised. */
  lemma UncheckedGapScenario()
    ensures var a, bc, cde := Candidate(0, "abcde", 0, 1), Candidate(1, "abcde", 1, 2), Candidate(2, "abcde", 2, 3);
      && Filter([a, bc, cde], "abcde") == Swept([a, cde], None)
      && GapAt([a, cde], 0)
  {
    var a, bc, cde := Candidate(0, "abcde", 0, 1), Candidate(1, "abcde", 1, 2), Candidate(2, "abcde", 2, 3);
    assert Erase([a, bc, cde], 1) == [a, cde];
    assert Sweep([a, cde], 1, "abcde") == Swept([a, cde], None);
    assert Sweep([a, bc, cde], 1, "abcde") == Sweep([a, cde], 1, "abcde");
    assert Sweep([a, bc, cde], 0, "abcde") == Sweep([a, bc, cde], 1, "abcde");
  }

  /** A client of the class: register the three sample types, lex the
      program, and the lexer holds the three expected tokens. */
  method LexSampleProgram() returns (lexer: Lexer)
    ensures lexer.tokens == [Token(UInt, "12"), Token(Whitespace, " "), Token(Int, "-24")]
    ensures lexer.candidates == [U02, Ws21, I33]
    ensures lexer.stringsLexed == [Program]
  {
    lexer := new Lexer();
    lexer.RegisterTokenType(Whitespace);
    lexer.RegisterTokenType(UInt);
    lexer.RegisterTokenType(Int);
    assert lexer.tokenTypes == [Whitespace, UInt, Int];
    assert lexer.candidates == [] && lexer.tokens == [] && lexer.stringsLexed == [];
    SampleEngineSound();
    SampleDiscovery();
    assert [] + [Ws21, U02, U42, I02, I33] == [Ws21, U02, U42, I02, I33];
    SampleSort();
    SampleSweep();
    SampleTokens();
    var before := lexer.candidates;
    var err := lexer.Lex(Program, SampleEngine);
    var scan := Discover(lexer.tokenTypes, Program, SampleEngine, |lexer.tokenTypes|);
    assert scan == Scan([Ws21, U02, U42, I02, I33], None);
    var f := Filter(SortByStart(before + scan.found), Program);
    assert f == Swept([U02, Ws21, I33], None);
    assert lexer.candidates == f.kept;
    assert lexer.candidates == [U02, Ws21, I33];
    assert err == None;
    assert lexer.tokens == [] + Convert(lexer.tokenTypes, lexer.candidates);
    assert lexer.stringsLexed == [] + [Program];
  }
}
