/** The inline quiz-text parser of the "Take Quiz" action: the generated text
    is cut into blank-line separated blocks, each block into lines, and every
    block of at least three lines becomes one question record plus one answer
    string. Shorter blocks are dropped without a word; nothing here fails. */
module QuizParser {
  import opened Optional
  import opened PyStr

  const BlockSeparator: string := "\n\n"
  const LineSeparator: string := "\n"
  const QuestionPrefix: string := "Question: "
  const OptionsPrefix: string := "Options: "
  const OptionSeparator: string := ", "
  const AnswerPrefix: string := "Answer: "

  /** The `{"question": ..., "options": ...}` record shown to the user. */
  datatype Question = Question(question: string, options: seq<string>)

  /** What one accepted block yields: the record and its expected answer. */
  datatype Entry = Entry(item: Question, answer: string)

  /** `line.replace("Question: ", "").strip()` */
  function QuestionText(line: string): string
  {
    Strip(Remove(line, QuestionPrefix))
  }

  /** `line.replace("Options: ", "").split(", ")` (not stripped, not capped) */
  function OptionList(line: string): seq<string>
  {
    Split(Remove(line, OptionsPrefix), OptionSeparator)
  }

  /** `line.replace("Answer: ", "").strip()` */
  function AnswerText(line: string): string
  {
    Strip(Remove(line, AnswerPrefix))
  }

  /** One block: accepted when it has at least three lines; only the first
      three lines are read. */
  function ParseBlock(block: string): Option<Entry>
  {
    var lines := Split(block, LineSeparator);
    if |lines| >= 3 then
      Some(Entry(Question(QuestionText(lines[0]), OptionList(lines[1])), AnswerText(lines[2])))
    else
      None
  }

  /** Apply `f` to every element in order and keep the `Some` results: the
      shape of a loop that appends only for the elements it accepts. */
  function FilterMap<A, B>(f: A -> Option<B>, xs: seq<A>): seq<B>
  {
    if xs == [] then []
    else
      var init := FilterMap(f, xs[..|xs| - 1]);
      match f(xs[|xs| - 1])
      case Some(y) => init + [y]
      case None => init
  }

  /** The entries of the accepted blocks, in block order. */
  function ParseAll(blocks: seq<string>): seq<Entry>
  {
    FilterMap(ParseBlock, blocks)
  }

  /** The whole parse of a generated quiz text. */
  function Parse(quizText: string): seq<Entry>
  {
    ParseAll(Split(quizText, BlockSeparator))
  }

  /** The `quiz_questions` list built from entries. */
  function Questions(entries: seq<Entry>): seq<Question>
  {
    seq(|entries|, k requires 0 <= k < |entries| => entries[k].item)
  }

  /** The `quiz_answers` list built from entries. */
  function Answers(entries: seq<Entry>): seq<string>
  {
    seq(|entries|, k requires 0 <= k < |entries| => entries[k].answer)
  }

  /** The parser loop: both output lists grow in lockstep, one element each
      per accepted block. */
  method ParseQuiz(quizText: string) returns (questions: seq<Question>, answers: seq<string>)
    ensures |questions| == |answers|
    ensures questions == Questions(Parse(quizText)) && answers == Answers(Parse(quizText))
  {
    var blocks := Split(quizText, BlockSeparator);
    questions, answers := [], [];
    for b := 0 to |blocks|
      invariant questions == Questions(ParseAll(blocks[..b]))
      invariant answers == Answers(ParseAll(blocks[..b]))
    {
      ParseAllStep(blocks, b);
      var lines := Split(blocks[b], LineSeparator);
      if |lines| >= 3 {
        var question := QuestionText(lines[0]);
        var options := OptionList(lines[1]);
        var answer := AnswerText(lines[2]);
        questions := questions + [Question(question, options)];
        answers := answers + [answer];
      }
    }
    assert blocks[..|blocks|] == blocks;
  }

  /** One more element extends the output by that element's result, if any. */
  lemma FilterMapSnoc<A, B>(f: A -> Option<B>, xs: seq<A>, b: nat)
    requires b < |xs|
    ensures FilterMap(f, xs[..b + 1])
            == FilterMap(f, xs[..b]) + (match f(xs[b]) case Some(y) => [y] case None => [])
  {
    assert xs[..b + 1][..b] == xs[..b];
  }

  /** Appending an entry appends its record and its answer. */
  lemma QuestionsAnswersSnoc(done: seq<Entry>, e: Entry)
    ensures Questions(done + [e]) == Questions(done) + [e.item]
    ensures Answers(done + [e]) == Answers(done) + [e.answer]
  {
  }

  /** One more block extends the parse by that block's entry, if any. */
  lemma ParseAllStep(blocks: seq<string>, b: nat)
    requires b < |blocks|
    ensures var done := ParseAll(blocks[..b]);
            var lines := Split(blocks[b], LineSeparator);
            && (|lines| >= 3 ==>
                  && Questions(ParseAll(blocks[..b + 1])) == Questions(done) + [Question(QuestionText(lines[0]), OptionList(lines[1]))]
                  && Answers(ParseAll(blocks[..b + 1])) == Answers(done) + [AnswerText(lines[2])])
            && (|lines| < 3 ==> ParseAll(blocks[..b + 1]) == done)
  {
    var done := ParseAll(blocks[..b]);
    FilterMapSnoc(ParseBlock, blocks, b);
    var lines := Split(blocks[b], LineSeparator);
    if |lines| >= 3 {
      var e := Entry(Question(QuestionText(lines[0]), OptionList(lines[1])), AnswerText(lines[2]));
      assert ParseBlock(blocks[b]) == Some(e);
      QuestionsAnswersSnoc(done, e);
    }
  }

  // ---------------------------------------------------------------------
  // One block

  /** A block yields an entry exactly when it contains at least two line
      breaks, i.e. splits into at least three lines. */
  lemma ParseBlockAccepts(block: string)
    ensures ParseBlock(block).Some? <==> Count(block, LineSeparator) >= 2
  {
    SplitCount(block, LineSeparator);
  }

  /** What an accepted block's fields look like: question and answer carry no
      whitespace at either end, and the options are the non-empty split of the
      second line with its prefix removed, which they join back to, one more
      than the separators in it, none containing the separator. */
  lemma ParseBlockShape(block: string)
    requires ParseBlock(block).Some?
    ensures var lines := Split(block, LineSeparator);
            var e := ParseBlock(block).value;
            var rest := Remove(lines[1], OptionsPrefix);
            && Stripped(e.item.question) && Stripped(e.answer)
            && |e.item.options| >= 1
            && Join(e.item.options, OptionSeparator) == rest
            && |e.item.options| == Count(rest, OptionSeparator) + 1
            && forall k :: 0 <= k < |e.item.options| ==> NoMatch(e.item.options[k], OptionSeparator)
  {
    var lines := Split(block, LineSeparator);
    var rest := Remove(lines[1], OptionsPrefix);
    JoinSplit(rest, OptionSeparator);
    SplitCount(rest, OptionSeparator);
    SplitPartsAvoidSep(rest, OptionSeparator);
  }

  /** Lines after the third never affect the entry. */
  lemma ParseBlockFirstThree(lines: seq<string>)
    requires |lines| >= 3
    requires forall k :: 0 <= k < |lines| ==> '\n' !in lines[k]
    ensures ParseBlock(Join(lines, LineSeparator)) == ParseBlock(Join(lines[..3], LineSeparator))
  {
    forall k | 0 <= k < |lines| ensures Clean(lines[k], LineSeparator) {
      FirstCharClean(lines[k], LineSeparator);
    }
    var first := lines[..3];
    assert forall k :: 0 <= k < |first| ==> first[k] == lines[k];
    SplitJoin(lines, LineSeparator);
    SplitJoin(first, LineSeparator);
    var e := Entry(Question(QuestionText(lines[0]), OptionList(lines[1])), AnswerText(lines[2]));
    assert ParseBlock(Join(lines, LineSeparator)) == Some(e);
    assert ParseBlock(Join(first, LineSeparator)) == Some(e);
  }

  /** The line `Question: <q>` etc. as the generator is asked to write it. */
  function RenderBlock(e: Entry): string
  {
    Join(BlockLines(e), LineSeparator)
  }

  /** A text of rendered entries separated by blank lines. */
  function Render(entries: seq<Entry>): string
  {
    Join(seq(|entries|, k requires 0 <= k < |entries| => RenderBlock(entries[k])), BlockSeparator)
  }

  /** An entry the parser can read back unchanged: no line breaks, no
      stray prefixes, no surrounding whitespace on the stripped fields, at
      least one option and no comma inside an option. */
  predicate WellFormed(e: Entry)
  {
    var q := e.item.question;
    var opts := e.item.options;
    && '\n' !in q && NoMatch(q, QuestionPrefix) && Stripped(q)
    && |opts| >= 1
    && (forall k :: 0 <= k < |opts| ==> '\n' !in opts[k] && ',' !in opts[k])
    && NoMatch(Join(opts, OptionSeparator), OptionsPrefix)
    && '\n' !in e.answer && NoMatch(e.answer, AnswerPrefix) && Stripped(e.answer)
  }

  /** No line break is followed by another one or ends the text. */
  predicate NoBlankLine(a: string)
  {
    forall i :: 0 <= i < |a| && a[i] == '\n' ==> i + 1 < |a| && a[i + 1] != '\n'
  }

  /** A text without blank lines holds no block separator. */
  lemma NoBlankLineClean(a: string)
    requires NoBlankLine(a)
    ensures Clean(a, BlockSeparator)
  {
    var s := a + BlockSeparator;
    forall i: nat | i < |a| ensures !MatchAt(s, BlockSeparator, i) {
      assert s[i] == a[i];
      assert i + 1 < |a| ==> s[i + 1] == a[i + 1];
      MatchCharAt(s, BlockSeparator, i, 0);
      MatchCharAt(s, BlockSeparator, i, 1);
    }
  }

  /** Non-empty lines without line breaks join into a text without blank
      lines that does not start with a line break. */
  lemma {:induction false} JoinLinesNoBlankLine(lines: seq<string>)
    requires |lines| >= 1
    requires forall k :: 0 <= k < |lines| ==> lines[k] != [] && '\n' !in lines[k]
    ensures var j := Join(lines, LineSeparator); NoBlankLine(j) && j != [] && j[0] == lines[0][0]
    decreases |lines|
  {
    if |lines| > 1 {
      var r := Join(lines[1..], LineSeparator);
      JoinLinesNoBlankLine(lines[1..]);
      var j := lines[0] + LineSeparator + r;
      assert j == Join(lines, LineSeparator);
      assert forall i :: 0 <= i < |lines[0]| ==> j[i] == lines[0][i];
      assert forall i :: |lines[0]| < i < |j| ==> j[i] == r[i - |lines[0]| - 1];
      assert j[|lines[0]| + 1] == r[0];
    }
  }

  /** A prefixed field without a stray prefix and without surrounding
      whitespace is read back as written. */
  lemma StrippedFieldBack(prefix: string, text: string)
    requires prefix != [] && NoMatch(text, prefix) && Stripped(text)
    ensures Strip(Remove(prefix + text, prefix)) == text
  {
    RemoveLeading(prefix, text);
    RemoveNoMatch(text, prefix);
    StripStripped(text);
  }

  /** An options line of comma-free options is read back as written. */
  lemma OptionsBack(opts: seq<string>)
    requires |opts| >= 1 && forall k :: 0 <= k < |opts| ==> ',' !in opts[k]
    requires NoMatch(Join(opts, OptionSeparator), OptionsPrefix)
    ensures OptionList(OptionsPrefix + Join(opts, OptionSeparator)) == opts
  {
    RemoveLeading(OptionsPrefix, Join(opts, OptionSeparator));
    RemoveNoMatch(Join(opts, OptionSeparator), OptionsPrefix);
    forall k | 0 <= k < |opts| ensures Clean(opts[k], OptionSeparator) {
      FirstCharClean(opts[k], OptionSeparator);
    }
    SplitJoin(opts, OptionSeparator);
  }

  /** The three lines of a rendered block. */
  function BlockLines(e: Entry): seq<string>
  {
    [QuestionPrefix + e.item.question,
     OptionsPrefix + Join(e.item.options, OptionSeparator),
     AnswerPrefix + e.answer]
  }

  /** A rendered well-formed block splits into its three lines. */
  lemma RenderBlockLines(e: Entry)
    requires WellFormed(e)
    ensures Split(RenderBlock(e), LineSeparator) == BlockLines(e)
  {
    var lines := BlockLines(e);
    JoinAvoids('\n', e.item.options, OptionSeparator);
    forall k | 0 <= k < 3 ensures Clean(lines[k], LineSeparator) {
      FirstCharClean(lines[k], LineSeparator);
    }
    SplitJoin(lines, LineSeparator);
  }

  /** Each line of a rendered well-formed block reads back as its field. */
  lemma BlockFieldsBack(e: Entry)
    requires WellFormed(e)
    ensures var lines := BlockLines(e);
            && QuestionText(lines[0]) == e.item.question
            && OptionList(lines[1]) == e.item.options
            && AnswerText(lines[2]) == e.answer
  {
    var lines := BlockLines(e);
    QuestionBack(e.item.question);
    assert QuestionText(lines[0]) == e.item.question;
    OptionsBack(e.item.options);
    assert OptionList(lines[1]) == e.item.options;
    AnswerBack(e.answer);
  }

  lemma QuestionBack(q: string)
    requires NoMatch(q, QuestionPrefix) && Stripped(q)
    ensures QuestionText(QuestionPrefix + q) == q
  {
    StrippedFieldBack(QuestionPrefix, q);
  }

  lemma AnswerBack(a: string)
    requires NoMatch(a, AnswerPrefix) && Stripped(a)
    ensures AnswerText(AnswerPrefix + a) == a
  {
    StrippedFieldBack(AnswerPrefix, a);
  }

  /** Parsing a rendered well-formed entry gives it back. */
  lemma ParseRenderBlock(e: Entry)
    requires WellFormed(e)
    ensures ParseBlock(RenderBlock(e)) == Some(e)
  {
    var lines := BlockLines(e);
    RenderBlockLines(e);
    BlockFieldsBack(e);
    assert ParseBlock(RenderBlock(e))
           == Some(Entry(Question(QuestionText(lines[0]), OptionList(lines[1])), AnswerText(lines[2])));
  }

  /** A rendered well-formed block contains no blank line. */
  lemma RenderBlockNoBlankLine(e: Entry)
    requires WellFormed(e)
    ensures NoBlankLine(RenderBlock(e))
  {
    var opts := e.item.options;
    JoinAvoids('\n', opts, OptionSeparator);
    JoinLinesNoBlankLine(BlockLines(e));
  }

  // ---------------------------------------------------------------------
  // The block loop

  /** Filtering distributes over concatenation: input order is output
      order. */
  lemma {:induction false} FilterMapAppend<A, B>(f: A -> Option<B>, a: seq<A>, b: seq<A>)
    ensures FilterMap(f, a + b) == FilterMap(f, a) + FilterMap(f, b)
    decreases |b|
  {
    if b == [] {
      assert a + b == a;
    } else {
      var ab := a + b;
      assert ab[..|ab| - 1] == a + b[..|b| - 1];
      assert ab[|ab| - 1] == b[|b| - 1];
      FilterMapAppend(f, a, b[..|b| - 1]);
    }
  }

  /** The number of elements `f` accepts. */
  function Accepted<A, B>(f: A -> Option<B>, xs: seq<A>): nat
  {
    if xs == [] then 0
    else (if f(xs[0]).Some? then 1 else 0) + Accepted(f, xs[1..])
  }

  /** One output per accepted element, and no other. */
  lemma {:induction false} FilterMapLength<A, B>(f: A -> Option<B>, xs: seq<A>)
    ensures |FilterMap(f, xs)| == Accepted(f, xs)
    decreases |xs|
  {
    if xs != [] {
      assert xs == [xs[0]] + xs[1..];
      FilterMapAppend(f, [xs[0]], xs[1..]);
      FilterMapLength(f, xs[1..]);
      assert [xs[0]][..0] == [];
    }
  }

  /** An accepted element's output sits after the outputs of the accepted
      elements before it. */
  lemma FilterMapAt<A, B>(f: A -> Option<B>, xs: seq<A>, k: nat)
    requires k < |xs| && f(xs[k]).Some?
    ensures Accepted(f, xs[..k]) < |FilterMap(f, xs)|
    ensures FilterMap(f, xs)[Accepted(f, xs[..k])] == f(xs[k]).value
  {
    assert xs == xs[..k] + ([xs[k]] + xs[k + 1..]);
    FilterMapAppend(f, xs[..k], [xs[k]] + xs[k + 1..]);
    FilterMapAppend(f, [xs[k]], xs[k + 1..]);
    FilterMapLength(f, xs[..k]);
    assert [xs[k]][..0] == [];
  }

  /** The output is empty exactly when no element is accepted. */
  lemma {:induction false} FilterMapEmpty<A, B>(f: A -> Option<B>, xs: seq<A>)
    ensures FilterMap(f, xs) == [] <==> forall k :: 0 <= k < |xs| ==> f(xs[k]).None?
    decreases |xs|
  {
    if xs != [] {
      var init := xs[..|xs| - 1];
      FilterMapEmpty(f, init);
      assert forall k :: 0 <= k < |init| ==> init[k] == xs[k];
    }
  }

  /** Elements that each map to the matching output give all the outputs. */
  lemma {:induction false} FilterMapEach<A, B>(f: A -> Option<B>, xs: seq<A>, ys: seq<B>)
    requires |xs| == |ys|
    requires forall k :: 0 <= k < |xs| ==> f(xs[k]) == Some(ys[k])
    ensures FilterMap(f, xs) == ys
    decreases |xs|
  {
    if xs != [] {
      var n := |xs| - 1;
      FilterMapEach(f, xs[..n], ys[..n]);
      assert ys[..n] + [ys[n]] == ys;
    }
  }

  // ---------------------------------------------------------------------
  // The whole text

  /** One entry per block of at least three lines. */
  lemma ParseLength(quizText: string)
    ensures |Parse(quizText)| == Accepted(ParseBlock, Split(quizText, BlockSeparator))
  {
    FilterMapLength(ParseBlock, Split(quizText, BlockSeparator));
  }

  /** Entries follow block order: the entry of the `k`-th block comes right
      after the entries of the accepted blocks before it. */
  lemma ParseOrder(quizText: string, k: nat)
    requires var blocks := Split(quizText, BlockSeparator); k < |blocks| && ParseBlock(blocks[k]).Some?
    ensures var blocks := Split(quizText, BlockSeparator);
            var j := Accepted(ParseBlock, blocks[..k]);
            j < |Parse(quizText)| && Parse(quizText)[j] == ParseBlock(blocks[k]).value
  {
    FilterMapAt(ParseBlock, Split(quizText, BlockSeparator), k);
  }

  /** A text with no line break parses to nothing; the parser never fails. */
  lemma NoLineBreakNoEntries(quizText: string)
    requires '\n' !in quizText
    ensures Parse(quizText) == []
  {
    FirstCharNoMatch(quizText, BlockSeparator);
    SplitNoMatch(quizText, BlockSeparator);
    FirstCharNoMatch(quizText, LineSeparator);
    SplitNoMatch(quizText, LineSeparator);
    assert ParseBlock(quizText) == None;
    FilterMapEmpty(ParseBlock, [quizText]);
  }

  /** Rendering well-formed entries and parsing the text gives them back; in
      particular a text of n well-formed three-line blocks yields n entries,
      whatever the number of options. */
  lemma ParseRender(entries: seq<Entry>)
    requires forall k :: 0 <= k < |entries| ==> WellFormed(entries[k])
    ensures Parse(Render(entries)) == entries
  {
    var blocks := seq(|entries|, k requires 0 <= k < |entries| => RenderBlock(entries[k]));
    if entries == [] {
      NoLineBreakNoEntries([]);
    } else {
      forall k | 0 <= k < |blocks| ensures Clean(blocks[k], BlockSeparator) {
        RenderBlockNoBlankLine(entries[k]);
        NoBlankLineClean(blocks[k]);
      }
      SplitJoin(blocks, BlockSeparator);
      forall k | 0 <= k < |blocks| ensures ParseBlock(blocks[k]) == Some(entries[k]) {
        ParseRenderBlock(entries[k]);
      }
      FilterMapEach(ParseBlock, blocks, entries);
    }
  }

  /** The options split is not capped at four: an options line of `n`
      comma-free options yields all `n` of them, for every `n >= 1`. */
  lemma OptionsUncapped(n: nat)
    requires n >= 1
    ensures |OptionList(OptionsPrefix + Join(seq(n, _ => "x"), OptionSeparator))| == n
  {
    var opts: seq<string> := seq(n, _ => "x");
    JoinAvoids('O', opts, OptionSeparator);
    FirstCharNoMatch(Join(opts, OptionSeparator), OptionsPrefix);
    OptionsBack(opts);
  }

  /** `str.replace` removes occurrences anywhere, so the removal can itself
      assemble a new prefix: the question field need not be free of
      `Question: `. */
  lemma QuestionTextCanKeepPrefix()
    ensures QuestionText("QuesQuestion: tion: x") == "Question: x"
    ensures MatchAt(QuestionText("QuesQuestion: tion: x"), QuestionPrefix, 0)
  {
    RemoveExample();
    StripStripped("Question: x");
    assert "Question: x"[0..] == "Question: x";
  }

  /** The options field loses a repeated prefix too: an option written as
      `Options: a` comes back as `a`. */
  lemma OptionsCanLosePrefix()
    ensures OptionList(OptionsPrefix + "Options: a") == ["a"]
  {
    RemoveLeading(OptionsPrefix, "Options: a");
    assert "Options: a" == OptionsPrefix + "a";
    RemoveLeading(OptionsPrefix, "a");
    FirstCharNoMatch("a", OptionsPrefix);
    RemoveNoMatch("a", OptionsPrefix);
    FirstCharNoMatch("a", OptionSeparator);
    SplitNoMatch("a", OptionSeparator);
  }

  /** Removing `Question: ` from the middle of `QuesQuestion: tion: x` leaves `Question: x`. */
  lemma RemoveExample()
    ensures Remove("QuesQuestion: tion: x", QuestionPrefix) == "Question: x"
  {
    var a, b := "Ques", "tion: x";
    QuesIsClean();
    FirstCharNoMatch(b, QuestionPrefix);
    RemoveSplice(a, b);
    ExampleParts();
  }

  /** Removing the one occurrence between a clean head and a tail without
      one leaves the head and the tail. */
  lemma RemoveSplice(a: string, b: string)
    requires Clean(a, QuestionPrefix) && NoMatch(b, QuestionPrefix)
    ensures Remove(a + QuestionPrefix + b, QuestionPrefix) == a + b
  {
    RemoveAppend(a, QuestionPrefix, b);
    RemoveNoMatch(b, QuestionPrefix);
  }

  /** How the example string is made of its head, the prefix and its tail. */
  lemma ExampleParts()
    ensures "Ques" + QuestionPrefix + "tion: x" == "QuesQuestion: tion: x"
    ensures "Ques" + "tion: x" == "Question: x"
  {
  }

  /** No occurrence of `Question: ` starts inside `Ques`. */
  lemma QuesIsClean()
    ensures Clean("Ques", QuestionPrefix)
  {
    var s := "Ques" + QuestionPrefix;
    MatchCharAt(s, QuestionPrefix, 0, 4);
    MatchCharAt(s, QuestionPrefix, 1, 0);
    MatchCharAt(s, QuestionPrefix, 2, 0);
    MatchCharAt(s, QuestionPrefix, 3, 0);
    assert s[4] == 'Q' && s[1] == 'u' && s[2] == 'e' && s[3] == 's';
  }
}
