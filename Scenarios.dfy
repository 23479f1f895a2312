/** Whole interactions with the session: the two-question example quiz from
    generation to score, answering again after submission, submitting twice,
    and pressing "Process Video" with no input. */
module Scenarios {
  import opened Optional
  import opened PyStr
  import opened QuizParser
  import opened Pipeline
  import opened Session

  /** The generated text of the example, block by block; each block is
      written field by field as the generator is asked to write it. */
  const SkyBlock: string :=
    "Question: " + "What color is the sky?" + "\n"
    + "Options: " + "A) Red" + ", " + "B) Blue" + ", " + "C) Green" + ", " + "D) Yellow" + "\n"
    + "Answer: " + "B) Blue"
  const SumBlock: string :=
    "Question: " + "2+2?" + "\n"
    + "Options: " + "A) 3" + ", " + "B) 4" + ", " + "C) 5" + ", " + "D) 6" + "\n"
    + "Answer: " + "B) 4"
  const SkyQuizText: string := SkyBlock + "\n\n" + SumBlock

  const Sky: Entry := Entry(Question("What color is the sky?", ["A) Red", "B) Blue", "C) Green", "D) Yellow"]), "B) Blue")
  const Sum: Entry := Entry(Question("2+2?", ["A) 3", "B) 4", "C) 5", "D) 6"]), "B) 4")

  /** Sufficient conditions, on characters alone, for an entry to be read
      back unchanged. */
  lemma WellFormedByChars(q: string, opts: seq<string>, a: string)
    requires CharsFit(q, opts, a)
    ensures WellFormed(Entry(Question(q, opts), a))
  {
    FirstCharNoMatch(q, QuestionPrefix);
    FirstCharNoMatch(a, AnswerPrefix);
    JoinAvoids('O', opts, OptionSeparator);
    FirstCharNoMatch(Join(opts, OptionSeparator), OptionsPrefix);
  }

  /** The example entries are ones the parser reads back. */
  lemma ExampleEntriesWellFormed()
    ensures WellFormed(Sky) && WellFormed(Sum)
  {
    SkyWellFormed();
    SumWellFormed();
  }

  /** Character conditions under which each field is read back unchanged. */
  predicate QuestionFits(q: string) { '\n' !in q && 'Q' !in q && Stripped(q) }
  predicate OptionFits(o: string) { '\n' !in o && ',' !in o && 'O' !in o }
  predicate AnswerFits(a: string) { '\n' !in a && 'A' !in a && Stripped(a) }

  predicate CharsFit(q: string, opts: seq<string>, a: string)
  {
    QuestionFits(q) && |opts| >= 1 && (forall k :: 0 <= k < |opts| ==> OptionFits(opts[k])) && AnswerFits(a)
  }

  lemma SkyChars()
    ensures CharsFit("What color is the sky?", ["A) Red", "B) Blue", "C) Green", "D) Yellow"], "B) Blue")
  {
    SkyQuestionFits();
    SkyOptionsFit();
    assert AnswerFits("B) Blue");
  }

  lemma SkyQuestionFits()
    ensures QuestionFits("What color is the sky?")
  {
  }

  lemma SkyOptionsFit()
    ensures OptionFits("A) Red") && OptionFits("B) Blue") && OptionFits("C) Green") && OptionFits("D) Yellow")
  {
  }

  lemma SumChars()
    ensures CharsFit("2+2?", ["A) 3", "B) 4", "C) 5", "D) 6"], "B) 4")
  {
    SumOptionsFit();
  }

  lemma SumOptionsFit()
    ensures OptionFits("A) 3") && OptionFits("B) 4") && OptionFits("C) 5") && OptionFits("D) 6")
  {
  }

  lemma SkyWellFormed()
    ensures WellFormed(Sky)
  {
    SkyChars();
    WellFormedByChars("What color is the sky?", ["A) Red", "B) Blue", "C) Green", "D) Yellow"], "B) Blue");
  }

  lemma SumWellFormed()
    ensures WellFormed(Sum)
  {
    SumChars();
    WellFormedByChars("2+2?", ["A) 3", "B) 4", "C) 5", "D) 6"], "B) 4");
  }

  /** `", ".join` of four options. */
  lemma JoinFour(a: string, b: string, c: string, d: string)
    ensures Join([a, b, c, d], OptionSeparator) == a + ", " + b + ", " + c + ", " + d
  {
    JoinCons(c, [d], OptionSeparator);
    assert [c, d] == [c] + [d];
    JoinCons(b, [c, d], OptionSeparator);
    assert [b, c, d] == [b] + [c, d];
    JoinCons(a, [b, c, d], OptionSeparator);
    assert [a, b, c, d] == [a] + [b, c, d];
  }

  /** A block is its three lines joined by line breaks. */
  lemma RenderBlockText(e: Entry)
    ensures RenderBlock(e) == QuestionPrefix + e.item.question + "\n"
                              + OptionsPrefix + Join(e.item.options, OptionSeparator) + "\n"
                              + AnswerPrefix + e.answer
  {
    var l := BlockLines(e);
    JoinCons(l[1], [l[2]], LineSeparator);
    assert l[1..] == [l[1]] + [l[2]];
    JoinCons(l[0], l[1..], LineSeparator);
    assert l == [l[0]] + l[1..];
  }

  /** A block with four options, piece by piece. */
  lemma BlockPieces(e: Entry)
    requires |e.item.options| == 4
    ensures var o := e.item.options;
            RenderBlock(e) == QuestionPrefix + e.item.question + "\n"
                              + OptionsPrefix + o[0] + ", " + o[1] + ", " + o[2] + ", " + o[3] + "\n"
                              + AnswerPrefix + e.answer
  {
    var o := e.item.options;
    assert o == [o[0], o[1], o[2], o[3]];
    JoinFour(o[0], o[1], o[2], o[3]);
    RenderBlockText(e);
  }

  lemma SkyBlockText()
    ensures RenderBlock(Sky) == SkyBlock
  {
    BlockPieces(Sky);
  }

  lemma SumBlockText()
    ensures RenderBlock(Sum) == SumBlock
  {
    BlockPieces(Sum);
  }

  /** Two blocks are joined by one blank line. */
  lemma RenderTwo(e1: Entry, e2: Entry)
    ensures Render([e1, e2]) == RenderBlock(e1) + BlockSeparator + RenderBlock(e2)
  {
    var blocks := seq(2, k requires 0 <= k < 2 => RenderBlock([e1, e2][k]));
    assert blocks == [RenderBlock(e1)] + [RenderBlock(e2)];
    JoinCons(RenderBlock(e1), [RenderBlock(e2)], BlockSeparator);
  }

  /** The example text is the rendering of its two entries. */
  lemma SkyTextIsRender()
    ensures SkyQuizText == Render([Sky, Sum])
  {
    SkyBlockText();
    SumBlockText();
    RenderTwo(Sky, Sum);
  }

  /** The example text parses into its two entries. */
  lemma SkyQuizParses()
    ensures Parse(SkyQuizText) == [Sky, Sum]
  {
    SkyTextIsRender();
    ExampleEntriesWellFormed();
    ParseRender([Sky, Sum]);
  }

  /** The lists the example fills in: two questions of four options each, and
      the expected answers "B) Blue" and "B) 4", each one of its question's
      options. */
  lemma ExampleLists()
    ensures Questions([Sky, Sum]) == [Sky.item, Sum.item]
    ensures |Sky.item.options| == 4 && |Sum.item.options| == 4
    ensures Answers([Sky, Sum]) == ["B) Blue", "B) 4"]
    ensures "B) Blue" in Sky.item.options && "B) 4" in Sum.item.options && "A) 3" in Sum.item.options
  {
    var r := Answers([Sky, Sum]);
    assert |r| == 2 && r[0] == Sky.answer && r[1] == Sum.answer;
    assert Sky.item.options[1] == "B) Blue";
    assert Sum.item.options[1] == "B) 4" && Sum.item.options[0] == "A) 3";
  }

  /** Generating a quiz of two questions, choosing both expected answers and
      submitting scores 2 of 2; choosing another option for the second
      question afterwards leaves the completed flag and the score as they
      were. */
  method AnswerTwoQuestions(quizText: string, e1: Entry, e2: Entry, change: string)
    returns (score: nat, completedAfterChange: bool, scoreAfterChange: nat)
    requires Parse(quizText) == [e1, e2]
    requires e1.answer in e1.item.options && e2.answer in e2.item.options
    requires change in e2.item.options
    ensures score == 2
    ensures completedAfterChange && scoreAfterChange == 2
  {
    var s := new QuizSession();
    s.Generate(quizText);
    assert s.quiz.value == [e1.item, e2.item] && s.quizAnswers == [e1.answer, e2.answer];
    s.Select(0, e1.answer);
    s.Select(1, e2.answer);
    s.Submit();
    ScoreAllMatch(s.userAnswers, s.quizAnswers);
    score := s.score;
    s.Select(1, change);
    completedAfterChange, scoreAfterChange := s.quizCompleted, s.score;
  }

  /** The example quiz: answering "B) Blue" and "B) 4" scores 2; answering
      "A) 3" afterwards changes nothing until the next submission. */
  method SkyQuizScenario() returns (score: nat, completedAfterChange: bool, scoreAfterChange: nat)
    ensures score == 2
    ensures completedAfterChange && scoreAfterChange == 2
  {
    SkyQuizParses();
    ExampleLists();
    score, completedAfterChange, scoreAfterChange := AnswerTwoQuestions(SkyQuizText, Sky, Sum, "A) 3");
  }

  /** Submitting again without changing an answer gives the same score. */
  method ResubmitScenario(s: QuizSession) returns (first: nat, second: nat)
    requires s.Valid() && s.quiz.Some?
    modifies s
    ensures first == second
  {
    s.Submit();
    first := s.score;
    s.Submit();
    second := s.score;
  }

  /** A freshly generated quiz submitted with every answer slot still unset
      scores 0, whatever the score of the previous quiz was. */
  method UntouchedQuizScenario(s: QuizSession, quizText: string) returns (score: nat)
    modifies s
    ensures score == 0
  {
    s.Generate(quizText);
    ScoreAllUnset(s.userAnswers, s.quizAnswers);
    s.Submit();
    score := s.score;
  }

  /** With neither an upload nor a link, "Process Video" reports the missing
      input and the session is exactly as before. */
  method NoInputScenario(s: QuizSession,
                         transcribe: AudioSource -> Transcription,
                         translate: (string, string, string) -> string,
                         summarize: string -> seq<string>)
    returns (outcome: ProcessOutcome, untouched: bool)
    requires s.Valid()
    modifies s
    ensures outcome == InputMissing && untouched
  {
    var before := (s.transcript, s.summary, s.quiz, s.quizAnswers, s.userAnswers, s.quizCompleted, s.score);
    outcome := s.Process(MediaInput(None, ""), "en", transcribe, translate, summarize);
    untouched := before == (s.transcript, s.summary, s.quiz, s.quizAnswers, s.userAnswers, s.quizCompleted, s.score);
  }
}
