# AI video summarization & quiz: the quiz pipeline in Dafny

The application is a single Streamlit page (`app.py`). It turns a video into a
transcript, a summary and a multiple-choice quiz. Speech recognition,
translation and the language model are external services. The logic the page
itself carries is modelled here:

- **The quiz-text parser** (`app.py:173-184`). The generated text is cut into
  blocks at every `"\n\n"` and each block into lines at every `"\n"`. Every
  block of at least three lines yields one question record
  (`{"question", "options"}`) and one expected answer. The model follows
  Python's string methods as they behave:
  - `str.split` is a left-to-right, non-overlapping split that never returns
    an empty list.
  - `str.replace(p, "")` removes every occurrence of `p`, not only a leading
    one.
  - `str.strip()` removes the characters `str.isspace()` accepts, Unicode ones
    included.
  - The prompt asks for four options (`app.py:73`), but the options split is
    not capped.
- **The session store** (`app.py:89-103`, `186-189`, `198-200`, `210-214`). A
  class with the fields `transcript`, `summary`, `quiz`, `quiz_answers`,
  `user_answers`, `quiz_completed` and `score`. Its methods are the page's
  actions: "Process Video", "Take Quiz" once the text is generated, choosing an
  answer, and "Submit Answers".
- **The pure decisions around the external calls.** These are the choice of
  audio source (`app.py:120-132`), the translation identity branch
  (`app.py:44-47`), and the fixed fallback texts returned when the model gives
  no completion (`app.py:59`, `87`).

Files:

- `Optional.dfy`: Python's `None` next to a value.
- `PyStr.dfy`: `split`, `join`, `count`, `replace(p, "")`, `isspace`,
  `lstrip`/`rstrip`/`strip`, and their laws.
- `QuizParser.dfy`: the parser as functions (`ParseBlock`, `Parse`). It also
  holds the parser loop as a method (`ParseQuiz`) proved equal to them, and
  the properties of the parse.
- `Pipeline.dfy`: input selection, translation identity and fallback texts.
- `Session.dfy`: the score and the `QuizSession` class.
- `Scenarios.dfy`: whole interactions, including the two-question example
  quiz, which parses into its two entries and scores 2 when answered
  correctly.

## Model

| member | source | states |
|---|---|---|
| PyStr.Split | app.py:176-177 | `str.split` never returns an empty list |
| PyStr.JoinSplit | app.py:180 | joining the parts of a split with the separator gives the string back |
| PyStr.SplitCount | app.py:177-178 | a split has exactly one more part than there are non-overlapping occurrences of the separator |
| PyStr.SplitPartsAvoidSep | app.py:180 | no part of a split contains the separator |
| PyStr.SplitHeadPrefix | app.py:177 | the first part of a split is a prefix of the string |
| PyStr.SplitNoMatch | app.py:176-177 | a string without the separator splits into itself alone |
| PyStr.SplitAppend | app.py:176-177 | when no occurrence starts inside `a`, splitting `a + sep + b` cuts at that separator first |
| PyStr.SplitJoin | app.py:176-177 | splitting a join gives the parts back when no part lets a separator start inside it |
| PyStr.RemoveIsJoinSplit | app.py:179 | `s.replace(p, "")` equals `"".join(s.split(p))`, so every occurrence is removed |
| PyStr.RemoveLength | app.py:179 | `replace` shortens the string by `len(p)` per occurrence counted by `count` |
| PyStr.RemoveLeading | app.py:179 | a leading occurrence is removed and the rest is treated as usual |
| PyStr.RemoveNoMatch | app.py:179 | without an occurrence `replace` changes nothing |
| PyStr.RemoveAppend | app.py:179 | removal passes over a prefix in which no occurrence starts |
| PyStr.TrimStart | app.py:179 | `lstrip` keeps a suffix, drops only whitespace, and leaves no leading whitespace |
| PyStr.TrimEnd | app.py:181 | `rstrip` keeps a prefix, drops only whitespace, and leaves no trailing whitespace |
| PyStr.Strip | app.py:179 | `strip` returns the slice between a whitespace prefix and a whitespace suffix, and neither end of it is whitespace |
| PyStr.StripStripped | app.py:181 | a string with no whitespace at either end is returned unchanged by `strip` |
| PyStr.StripIdempotent | app.py:179 | `strip` is idempotent |
| QuizParser.ParseQuiz | app.py:173-184 | the loop's two lists have equal length and are the questions and the answers of the parse, in block order |
| QuizParser.ParseAllStep | app.py:176-184 | one more block appends its record and its answer exactly when it has at least three lines, and leaves both lists alone otherwise |
| QuizParser.ParseLength | app.py:176-178 | the parse has one entry per block of at least three lines |
| QuizParser.ParseOrder | app.py:183-184 | the entry of block `k` comes right after the entries of the accepted blocks before it |
| QuizParser.FilterMapEmpty | app.py:178 | the output is empty exactly when no block is accepted |
| QuizParser.ParseBlockAccepts | app.py:177-178 | a block yields an entry exactly when it contains at least two line breaks |
| QuizParser.ParseBlockShape | app.py:179-181 | question and answer have no whitespace at either end; the options are non-empty, join back to the options line with every `Options: ` removed, number one more than its `", "` occurrences, and none contains `", "` |
| QuizParser.ParseBlockFirstThree | app.py:177-181 | lines after the third never affect the entry |
| QuizParser.NoLineBreakNoEntries | app.py:176-178 | a text without a line break, such as `""`, parses to no entry and does not fail |
| QuizParser.QuestionBack | app.py:179 | a question line without a stray prefix and without surrounding whitespace is read back as written |
| QuizParser.AnswerBack | app.py:181 | the same for the answer line |
| QuizParser.OptionsBack | app.py:180 | an options line of comma-free options, in which `Options: ` does not occur, is read back as the same list |
| QuizParser.OptionsUncapped | app.py:180 | for every `n >= 1`, a line of `n` options `x` yields all `n`, so there is no cap at four |
| QuizParser.ParseRenderBlock | app.py:177-183 | a well-formed entry written in the generator's format is parsed back to itself |
| QuizParser.ParseRender | app.py:173-184 | a text of well-formed blocks separated by blank lines parses back to exactly those entries |
| QuizParser.QuestionTextCanKeepPrefix | app.py:179 | the question field can still start with `Question: `, because removing every occurrence can join a new one (`"QuesQuestion: tion: x"` gives `"Question: x"`) |
| QuizParser.OptionsCanLosePrefix | app.py:180 | an options line whose option itself contains `Options: ` loses that text too: `Options: Options: a` yields `["a"]` |
| Pipeline.SelectSource | app.py:120-132 | no source exactly when there is neither an upload nor a link; an upload wins over a link; the link is used exactly when there is no upload and the link is non-empty, and it is used as typed |
| Pipeline.TranslateTranscript | app.py:44-47 | when the detected and the chosen language are equal, the text is returned unchanged |
| Pipeline.SentinelQuizHasNoEntries | app.py:87 | the fallback quiz text parses to no question |
| Session.Score | app.py:212-214 | the score never exceeds the number of questions |
| Session.ScoreCountsMatches | app.py:212-214 | the score is the number of indices whose chosen answer equals the expected answer |
| Session.ScoreAllMatch | app.py:212-214 | every slot matching gives the full score |
| Session.ScoreAllUnset | app.py:188-214 | all slots unset gives 0, because an unset slot never matches |
| Session.ScoreAtMostAnswerable | app.py:198-214 | when every chosen answer is one of its question's options, the score is at most the number of questions whose expected answer is one of their options |
| Session.QuizSession.constructor | app.py:89-103 | the initial store: no transcript, summary or quiz, empty answer lists, not completed, score 0, and the store invariant holds |
| Session.QuizSession.Process | app.py:120-141 | without input nothing is stored; otherwise the chosen source is used, and transcript and summary are set from it; the quiz fields are not touched |
| Session.QuizSession.Generate | app.py:186-189 | quiz and expected answers become the parse, every answer slot is unset, the quiz is not completed, and the score is kept |
| Session.QuizSession.Select | app.py:198-200 | exactly one answer slot is written; completion and score stay as they are |
| Session.QuizSession.Submit | app.py:210-214 | the quiz is completed and the score is recomputed in full from the current answers |
| Scenarios.SkyQuizParses | app.py:176-184 | the two-question example text parses into its two entries of four options each |
| Scenarios.AnswerTwoQuestions | app.py:186-214 | choosing both expected answers of a two-question quiz and submitting scores 2; changing an answer afterwards leaves completion and score as they were |
| Scenarios.SkyQuizScenario | app.py:173-214 | the example quiz answered "B) Blue" and "B) 4" scores 2 |
| Scenarios.ResubmitScenario | app.py:210-214 | submitting twice without changing an answer gives the same score |
| Scenarios.UntouchedQuizScenario | app.py:186-214 | a freshly generated quiz submitted with every answer slot unset scores 0, whatever the previous score was |
| Scenarios.NoInputScenario | app.py:120-132 | "Process Video" with neither an upload nor a link reports the missing input and leaves every field as it was |

## Left out

- Speech recognition with Whisper (`app.py:38-41`), audio extraction with moviepy (`app.py:32-35`) and the YouTube download with yt_dlp, including its `.webm`/`.m4a` file-name rewrite (`app.py:15-29`). These are foreign library calls with file I/O. `Process` receives the recogniser as a function parameter `transcribe` from the chosen source to text and language.
- The GoogleTranslator call (`app.py:46`). It is the function parameter `translate`.
- The Groq requests (`app.py:50-58`, `62-86`). The list of completions the summary request returns is the function parameter `summarize`. The quiz text is an arbitrary input to `Generate`, so the prompt wording and the difficulty are not modelled.
- Temporary files and their deletion (`app.py:122-124`, `144`), and loading the API key (`app.py:11-12`). These are operating-system and environment I/O.
- All Streamlit rendering: the sidebar, the video, the text areas, headings, the per-question feedback messages (`app.py:203-208`), the score line (`app.py:216-217`) and `st.stop`. The language picker's name-to-code map (`app.py:113-118`) is left out too; `Process` receives the language code directly.
- Session.QuizSession.Select: the radio widget is modelled as an explicit choice, and its precondition requires one of the question's options, which is all the widget offers. The widget's default selection is not modelled. On the page that default fills every slot with the first option as soon as the quiz is drawn. In the model a slot stays unset until it is chosen.
- Session.QuizSession.Submit: requires a quiz to be present, because the button is only drawn inside the branch that shows a quiz (`app.py:193`). The model also allows an empty quiz, which the page never offers for submission.
- Session.QuizSession.Process: exceptions raised by the external services end the run in the application. The model does not represent them.
- How `app.py` behaves where a reader might expect otherwise:
  - Regenerating a quiz keeps the old score, because `app.py:186-189` never assigns `score`.
  - The options line is split with no cap on the number of options (`app.py:180`), although the prompt asks for four (`app.py:73`).
  - Prefixes are removed wherever they occur, not only at the start of a line (`app.py:179-181`).
  - Blocks of fewer than three lines are dropped silently (`app.py:178`).
- The field after the removal is not guaranteed to be free of its prefix. The counterexample is QuizParser.QuestionTextCanKeepPrefix. The options line, conversely, can lose text of its own: `Options: Options: a` reads back as `["a"]` (QuizParser.OptionsCanLosePrefix). The properties that do hold are QuizParser.QuestionBack, QuizParser.OptionsBack and QuizParser.AnswerBack, for fields in which their prefix does not occur.
