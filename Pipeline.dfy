/** The pure decisions of the "Process Video" and generation steps: which
    input the audio comes from, when translation is skipped, and the fixed
    fallback text a generation request yields when the model returns no
    completion. Speech recognition, translation and the language model are
    outside the model: their results arrive as parameters. */
module Pipeline {
  import opened Optional
  import QuizParser

  const SummarySentinel: string := "Error generating summary."
  const QuizSentinel: string := "Error generating quiz."

  /** What speech recognition returns: the text and the detected language. */
  datatype Transcription = Transcription(text: string, language: string)

  /** Where the audio comes from: the uploaded video or the video link. */
  datatype AudioSource = FromUpload(file: string) | FromUrl(url: string)

  /** The sidebar inputs: an uploaded file (absent or present) and the text of
      the link field (empty when nothing was typed). */
  datatype MediaInput = MediaInput(upload: Option<string>, url: string)

  /** How "Process Video" ends: stopped for want of input, or processed from
      the chosen source. */
  datatype ProcessOutcome = InputMissing | Processed(source: AudioSource)

  /** The branch taken by "Process Video": the upload when there is one,
      otherwise a non-empty link, otherwise nothing. */
  function SelectSource(input: MediaInput): (r: Option<AudioSource>)
    ensures r.None? <==> input.upload.None? && input.url == []
    ensures input.upload.Some? ==> r == Some(FromUpload(input.upload.value))
    ensures r.Some? && r.value.FromUrl? <==> input.upload.None? && input.url != []
    ensures r.Some? && r.value.FromUrl? ==> r.value.url == input.url
  {
    if input.upload.Some? then Some(FromUpload(input.upload.value))
    else if input.url != [] then Some(FromUrl(input.url))
    else None
  }

  /** `translate_transcript`: the backend is only consulted when the detected
      language differs from the chosen one. */
  function TranslateTranscript(text: string, source: string, target: string,
                               translate: (string, string, string) -> string): (r: string)
    ensures source == target ==> r == text
  {
    if source != target then translate(text, source, target) else text
  }

  /** The first completion the model returned, or the fixed fallback text. */
  function FirstChoiceOr(choices: seq<string>, sentinel: string): string
  {
    if |choices| > 0 then choices[0] else sentinel
  }

  /** When the model returns no completion, the fallback quiz text parses to
      no question at all. */
  lemma SentinelQuizHasNoEntries()
    ensures QuizParser.Parse(FirstChoiceOr([], QuizSentinel)) == []
  {
    assert '\n' !in QuizSentinel;
    QuizParser.NoLineBreakNoEntries(QuizSentinel);
  }
}
