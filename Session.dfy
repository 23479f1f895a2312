/** The per-session store the page reads and writes on every run, and the
    actions that change it: start of session, "Process Video", "Take Quiz",
    choosing an answer and "Submit Answers". */
module Session {
  import opened Optional
  import opened QuizParser
  import opened Pipeline

  /** The submitted score: the number of indices at which the chosen answer
      equals the expected answer. An unset slot never matches. */
  function Score(userAnswers: seq<Option<string>>, quizAnswers: seq<string>): (n: nat)
    requires |userAnswers| == |quizAnswers|
    ensures n <= |quizAnswers|
  {
    if quizAnswers == [] then 0
    else
      var m := |quizAnswers| - 1;
      Score(userAnswers[..m], quizAnswers[..m]) + (if userAnswers[m] == Some(quizAnswers[m]) then 1 else 0)
  }

  /** The indices at which the chosen answer is the expected one. */
  function MatchingSlots(userAnswers: seq<Option<string>>, quizAnswers: seq<string>): set<nat>
    requires |userAnswers| == |quizAnswers|
  {
    set i: nat | i < |quizAnswers| && userAnswers[i] == Some(quizAnswers[i])
  }

  /** The indices whose expected answer is one of the question's options. */
  function AnswerableSlots(quiz: seq<Question>, quizAnswers: seq<string>): set<nat>
    requires |quiz| == |quizAnswers|
  {
    set i: nat | i < |quizAnswers| && quizAnswers[i] in quiz[i].options
  }

  /** The score is the number of matching slots. */
  lemma {:induction false} ScoreCountsMatches(userAnswers: seq<Option<string>>, quizAnswers: seq<string>)
    requires |userAnswers| == |quizAnswers|
    ensures Score(userAnswers, quizAnswers) == |MatchingSlots(userAnswers, quizAnswers)|
    decreases |quizAnswers|
  {
    if quizAnswers != [] {
      var m := |quizAnswers| - 1;
      var before := MatchingSlots(userAnswers[..m], quizAnswers[..m]);
      ScoreCountsMatches(userAnswers[..m], quizAnswers[..m]);
      if userAnswers[m] == Some(quizAnswers[m]) {
        assert MatchingSlots(userAnswers, quizAnswers) == before + {m};
      } else {
        assert MatchingSlots(userAnswers, quizAnswers) == before;
      }
    }
  }

  /** Every slot matching gives the full score. */
  lemma {:induction false} ScoreAllMatch(userAnswers: seq<Option<string>>, quizAnswers: seq<string>)
    requires |userAnswers| == |quizAnswers|
    requires forall i :: 0 <= i < |quizAnswers| ==> userAnswers[i] == Some(quizAnswers[i])
    ensures Score(userAnswers, quizAnswers) == |quizAnswers|
    decreases |quizAnswers|
  {
    if quizAnswers != [] {
      var m := |quizAnswers| - 1;
      ScoreAllMatch(userAnswers[..m], quizAnswers[..m]);
    }
  }

  /** No slot set gives a score of zero. */
  lemma {:induction false} ScoreAllUnset(userAnswers: seq<Option<string>>, quizAnswers: seq<string>)
    requires |userAnswers| == |quizAnswers|
    requires forall i :: 0 <= i < |userAnswers| ==> userAnswers[i].None?
    ensures Score(userAnswers, quizAnswers) == 0
    decreases |quizAnswers|
  {
    if quizAnswers != [] {
      var m := |quizAnswers| - 1;
      ScoreAllUnset(userAnswers[..m], quizAnswers[..m]);
    }
  }

  lemma SubsetCard(a: set<nat>, b: set<nat>)
    requires a <= b
    ensures |a| <= |b|
  {
    assert b == a + (b - a);
  }

  /** Answers are picked among the question's options, so a question whose
      expected answer is not one of its options can never be scored: the score
      is at most the number of answerable questions. */
  lemma ScoreAtMostAnswerable(quiz: seq<Question>, userAnswers: seq<Option<string>>, quizAnswers: seq<string>)
    requires |quiz| == |quizAnswers| == |userAnswers|
    requires forall i :: 0 <= i < |userAnswers| && userAnswers[i].Some? ==> userAnswers[i].value in quiz[i].options
    ensures Score(userAnswers, quizAnswers) <= |AnswerableSlots(quiz, quizAnswers)|
  {
    ScoreCountsMatches(userAnswers, quizAnswers);
    SubsetCard(MatchingSlots(userAnswers, quizAnswers), AnswerableSlots(quiz, quizAnswers));
  }

  /** The session store. A fresh session has no quiz yet (`None`), empty
      answer lists, is not completed and scores 0. */
  class QuizSession {
    var transcript: Option<string>
    var summary: Option<string>
    var quiz: Option<seq<Question>>
    var quizAnswers: seq<string>
    var userAnswers: seq<Option<string>>
    var quizCompleted: bool
    var score: nat

    /** `len(quiz)`, with no quiz counting as none. */
    function QuizLength(): nat
      reads this
    {
      if quiz.Some? then |quiz.value| else 0
    }

    /** Questions, expected answers and answer slots stay index-aligned; a
        completed quiz has a score within its length; a set slot holds one of
        its question's options. */
    ghost predicate Valid()
      reads this
    {
      && |quizAnswers| == QuizLength()
      && |userAnswers| == QuizLength()
      && (quizCompleted ==> quiz.Some? && score <= QuizLength())
      && forall i :: 0 <= i < |userAnswers| && userAnswers[i].Some? ==>
           userAnswers[i].value in quiz.value[i].options
    }

    constructor ()
      ensures Valid()
      ensures transcript == None && summary == None && quiz == None
      ensures quizAnswers == [] && userAnswers == [] && !quizCompleted && score == 0
    {
      transcript, summary, quiz := None, None, None;
      quizAnswers, userAnswers := [], [];
      quizCompleted, score := false, 0;
    }

    /** "Process Video": without an upload or a link it stops before touching
        the store; otherwise the transcript (translated when the languages
        differ) and its summary are stored. The quiz is left alone. */
    method Process(input: MediaInput, target: string,
                   transcribe: AudioSource -> Transcription,
                   translate: (string, string, string) -> string,
                   summarize: string -> seq<string>)
      returns (outcome: ProcessOutcome)
      requires Valid()
      modifies this`transcript, this`summary
      ensures Valid()
      ensures outcome == (match SelectSource(input)
                          case None => InputMissing
                          case Some(source) => Processed(source))
      ensures outcome.InputMissing? ==> transcript == old(transcript) && summary == old(summary)
      ensures outcome.Processed? ==>
                var heard := transcribe(outcome.source);
                var text := TranslateTranscript(heard.text, heard.language, target, translate);
                transcript == Some(text) && summary == Some(FirstChoiceOr(summarize(text), SummarySentinel))
    {
      var source := SelectSource(input);
      if source.None? {
        return InputMissing;
      }
      var heard := transcribe(source.value);
      var text := TranslateTranscript(heard.text, heard.language, target, translate);
      transcript := Some(text);
      summary := Some(FirstChoiceOr(summarize(text), SummarySentinel));
      outcome := Processed(source.value);
    }

    /** "Take Quiz" once the quiz text is generated: the parse replaces the
        questions and expected answers, every answer slot is unset and the
        quiz is not completed. The old score is kept. */
    method Generate(quizText: string)
      modifies this`quiz, this`quizAnswers, this`userAnswers, this`quizCompleted
      ensures Valid()
      ensures quiz == Some(Questions(Parse(quizText)))
      ensures quizAnswers == Answers(Parse(quizText))
      ensures userAnswers == seq(|Parse(quizText)|, _ => None)
      ensures !quizCompleted && score == old(score)
    {
      var questions, answers := ParseQuiz(quizText);
      quiz := Some(questions);
      quizAnswers := answers;
      userAnswers := seq(|questions|, _ => None);
      quizCompleted := false;
    }

    /** Choosing `option` for question `i` writes that one slot, before or
        after submission; completion and score stay as they are. */
    method Select(i: nat, option: string)
      requires Valid() && quiz.Some? && i < |quiz.value| && option in quiz.value[i].options
      modifies this`userAnswers
      ensures Valid()
      ensures userAnswers == old(userAnswers)[i := Some(option)]
    {
      userAnswers := userAnswers[i := Some(option)];
    }

    /** "Submit Answers": the quiz is completed and the score recomputed in
        full from the current answers. */
    method Submit()
      requires Valid() && quiz.Some?
      modifies this`quizCompleted, this`score
      ensures Valid()
      ensures quizCompleted && score == Score(userAnswers, quizAnswers)
    {
      quizCompleted := true;
      score := Score(userAnswers, quizAnswers);
    }
  }
}
