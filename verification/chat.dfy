/** The generative-model chat session, seen only through what one call returns,
    and the settings the pages that call it share. */
module Chat {
  import opened Wrappers

  /** What `await chatSession.sendMessage(prompt)` followed by `await
      result.response.text()` produced: the response text, or the message of the
      error either step threw (`err?.message`, or "" when there is none). */
  datatype Reply = Answered(text: string) | Threw(message: string)

  /** The language code of the untranslated interface, and the default preference. */
  const English: string := "en"

  const DefaultQuestionCount: string := "8"

  /** The number of question/answer pairs a generation prompt asks for: the
      configured environment value when it is set and non-empty, 8 otherwise. */
  function QuestionCount(configured: Option<string>): (r: string)
    ensures r != ""
    ensures configured.Some? && configured.value != "" ==> r == configured.value
    ensures configured.None? || configured.value == "" ==> r == DefaultQuestionCount
  {
    OrElse(configured, DefaultQuestionCount)
  }
}
