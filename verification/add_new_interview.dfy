/** The submit handler of the "new mock interview" dialog: prompt choice, payload
    extraction, the stored record and the navigate-on-id guard. The model call, the
    database insert, the generated id and the clock are parameters. */
module AddNewInterview {
  import opened Wrappers
  import opened Chat
  import Text
  import FencedJson

  const HindiInstruction: string :=
    "\nIMPORTANT:\n- All questions AND answers must be in Hindi.\n"
    + "- Do NOT mix English except for code, library, or API names.\n"
  const EnglishInstruction: string :=
    "\nIMPORTANT:\n- All questions AND answers must be in English.\n"
    + "- Do NOT mix any other language.\n"

  /** The dialog's three form fields. */
  datatype Form = Form(jobPosition: string, jobDesc: string, jobExperience: string)

  /** What the prompt is made of (its fixed wording is not modelled). */
  datatype Prompt = Prompt(form: Form, count: string, instruction: string)

  /** A row of the `mockInterview` table as the handler writes it. */
  datatype InterviewRecord = InterviewRecord(
    mockId: string, jsonMockResp: string, jobPosition: string, jobDesc: string,
    jobExperience: string, createdBy: Option<string>, createdAt: string)

  /** What the insert did: the `mockId` of each returned row, or it threw. */
  datatype Insert = Returned(mockIds: seq<string>) | InsertThrew

  datatype Route = InterviewPage(mockId: string)

  /** The visible outcome of one submit; `inserted` is the record handed to the
      insert, if the handler got that far. */
  datatype Submitted = Submitted(
    prompt: Prompt, inserted: Option<InterviewRecord>, openDialog: bool, loading: bool,
    navigatedTo: Option<Route>, alerted: bool)

  /** The instruction appended to the prompt for the current UI language. */
  function LanguageInstruction(language: string): (r: string)
    ensures r == HindiInstruction <==> language == "hi"
    ensures r == HindiInstruction || r == EnglishInstruction
  {
    if language == "hi" then HindiInstruction else EnglishInstruction
  }


  /** `resp?.[0]?.mockId` is truthy. */
  predicate HasReturnedId(ins: Insert) {
    ins.Returned? && |ins.mockIds| > 0 && ins.mockIds[0] != ""
  }

  /** `onSubmit`. `newMockId` is the generated uuid, `userEmail` the signed-in user's
      address if any, `createdAt` the ISO timestamp. */
  function OnSubmit(form: Form, language: string, configuredCount: Option<string>,
                    openDialog: bool, userEmail: Option<string>, newMockId: string,
                    createdAt: string, reply: Reply, insert: Insert): (r: Submitted)
    // Every path ends with loading false.
    ensures !r.loading
    ensures r.prompt == Prompt(form, QuestionCount(configuredCount), LanguageInstruction(language))
    // The extracted payload is stored as it is, with no JSON check before the insert.
    ensures r.inserted.Some? <==> reply.Answered?
    ensures reply.Answered? ==> r.inserted == Some(InterviewRecord(
      newMockId, FencedJson.InterviewPayload(reply.text), form.jobPosition, form.jobDesc,
      form.jobExperience, userEmail, createdAt))
    // The dialog closes and the page changes only when the insert returned an id.
    ensures r.navigatedTo.Some? <==> reply.Answered? && HasReturnedId(insert)
    ensures r.navigatedTo.Some? ==> r.navigatedTo.value == InterviewPage(insert.mockIds[0])
    ensures r.openDialog == (openDialog && r.navigatedTo.None?)
    // An error from the model or the insert is reported; a missing id is not.
    ensures r.alerted <==> reply.Threw? || insert.InsertThrew?
  {
    var prompt := Prompt(form, QuestionCount(configuredCount), LanguageInstruction(language));
    match reply
    case Threw(_) => Submitted(prompt, None, openDialog, false, None, true)
    case Answered(text) =>
      var record := InterviewRecord(newMockId, FencedJson.InterviewPayload(text),
        form.jobPosition, form.jobDesc, form.jobExperience, userEmail, createdAt);
      match insert
      case InsertThrew => Submitted(prompt, Some(record), openDialog, false, None, true)
      case Returned(ids) =>
        if HasReturnedId(insert) then
          Submitted(prompt, Some(record), false, false, Some(InterviewPage(ids[0])), false)
        else Submitted(prompt, Some(record), openDialog, false, None, false)
  }

  /** Whatever the model replied, a record is stored, and its payload is the extracted
      text: a trimmed piece of the reply that nothing checks to be JSON. Which piece it
      is, the fenced region or the whole reply, is fixed by
      `FencedJson.FencedInterviewPayload` and `FencedJson.UnfencedInterviewPayload`. */
  lemma StoredPayloadIsExtracted(form: Form, language: string, configuredCount: Option<string>,
                                 openDialog: bool, userEmail: Option<string>, newMockId: string,
                                 createdAt: string, text: string, insert: Insert)
    ensures var r := OnSubmit(form, language, configuredCount, openDialog, userEmail,
                              newMockId, createdAt, Answered(text), insert);
      r.inserted.Some? && r.inserted.value.jsonMockResp == FencedJson.InterviewPayload(text)
      && Text.IsTrimmed(r.inserted.value.jsonMockResp)
      && Text.IsSubstring(r.inserted.value.jsonMockResp, text)
  {
    FencedJson.InterviewPayloadIsTrimmedSubstring(text);
  }
}
