/** The submit handler of the custom question-set dialog as a pure transition on the
    page state: login guard, payload extraction, parse-or-abort, insert, prepend to
    the list, reset. The model call, `JSON.parse`/`JSON.stringify`, the insert and
    the clock are parameters. */
module CustomQuestions {
  import opened Wrappers
  import opened Json
  import opened Chat
  import FencedJson

  /** An entry of the page's list of question sets. */
  datatype Config = Config(id: int, domain: string, skills: string, experience: string)

  /** The page's state: the dialog, its three fields, the spinner and the list. */
  datatype Page = Page(
    openDialog: bool, customDomain: string, customSkills: string, customExperience: string,
    loading: bool, configs: seq<Config>)

  /** The signed-in user, with their primary e-mail address if any. */
  datatype User = User(email: Option<string>)

  /** A row of the `custom_interview_qna` table as the handler writes it. */
  datatype QnARecord = QnARecord(
    domain: string, skills: string, experience: string, jsonQnA: string,
    createdBy: Option<string>, createdAt: string)

  /** What the insert did: the `id` of each returned row, or it threw. */
  datatype Insert = Returned(ids: seq<Option<int>>) | InsertThrew

  datatype Route = CustomQuestionsPage(id: int)

  /** The three alerts: not signed in, the reply is not JSON, anything else failed. */
  datatype Alert = LoginFirst | NotJson | GenerateFailed

  /** What the prompt is made of (its fixed wording is not modelled). */
  datatype Prompt = Prompt(domain: string, skills: string, experience: string, count: string)

  /** The outcome of one submit; `inserted` is the record handed to the insert. */
  datatype Submitted = Submitted(
    page: Page, prompt: Option<Prompt>, inserted: Option<QnARecord>,
    navigatedTo: Option<Route>, alert: Option<Alert>)


  /** `resp[0]?.id` when it is truthy; a missing row, a missing id and id 0 are not. */
  function ReturnedId(insert: Insert): (r: Option<int>)
    ensures r.Some? ==> r.value != 0
    ensures r.Some? <==> insert.Returned? && |insert.ids| > 0 && insert.ids[0].Some?
                         && insert.ids[0].value != 0
    ensures r.Some? ==> Some(r.value) == insert.ids[0]
  {
    match insert
    case Returned(ids) => if |ids| > 0 && ids[0].Some? && ids[0].value != 0 then ids[0] else None
    case InsertThrew => None
  }

  /** The submit completed: a user, a reply that parses, and an id back. */
  predicate Succeeds(user: Option<User>, reply: Reply, codec: Codec, insert: Insert) {
    && user.Some? && reply.Answered?
    && codec.parse(FencedJson.CustomPayload(reply.text)).Success?
    && ReturnedId(insert).Some?
  }

  /** `onSubmitCustom`. */
  function OnSubmitCustom(page: Page, user: Option<User>, configuredCount: Option<string>,
                          reply: Reply, codec: Codec, createdAt: string, insert: Insert)
    : (r: Submitted)
    // Without a user nothing is generated, stored or navigated, and nothing changes.
    ensures user.None? ==> r == Submitted(page, None, None, None, Some(LoginFirst))
    // Every other path ends with loading false.
    ensures user.Some? ==> !r.page.loading
    ensures user.Some? ==> r.prompt == Some(Prompt(page.customDomain, page.customSkills,
                                                   page.customExperience, QuestionCount(configuredCount)))
    // A reply that does not parse stops the handler before the insert.
    ensures r.inserted.Some? <==>
      user.Some? && reply.Answered? && codec.parse(FencedJson.CustomPayload(reply.text)).Success?
    // The stored JSON is the re-serialised parse; experience is stored as a string.
    ensures r.inserted.Some? ==> r.inserted.value == QnARecord(
      page.customDomain, page.customSkills, page.customExperience,
      codec.stringify(codec.parse(FencedJson.CustomPayload(reply.text)).value),
      user.value.email, createdAt)
    // Only a returned id leads anywhere.
    ensures r.navigatedTo.Some? <==> Succeeds(user, reply, codec, insert)
    ensures r.navigatedTo.Some? ==> r.navigatedTo.value == CustomQuestionsPage(ReturnedId(insert).value)
    // On success the new entry goes first, the old ones follow unchanged, the form resets.
    ensures Succeeds(user, reply, codec, insert) ==>
      && r.page == Page(false, "", "", "", false,
           [Config(ReturnedId(insert).value, page.customDomain, page.customSkills,
                   page.customExperience)] + page.configs)
      && r.alert.None?
    // Every failure after the login check changes nothing but the spinner.
    ensures user.Some? && !Succeeds(user, reply, codec, insert) ==>
      r.page == page.(loading := false) && r.alert.Some?
    ensures r.alert == Some(NotJson) <==>
      user.Some? && reply.Answered? && codec.parse(FencedJson.CustomPayload(reply.text)).Failure?
  {
    if user.None? then Submitted(page, None, None, None, Some(LoginFirst))
    else
      var prompt := Prompt(page.customDomain, page.customSkills, page.customExperience,
                           QuestionCount(configuredCount));
      var idle := page.(loading := false);
      match reply
      case Threw(_) => Submitted(idle, Some(prompt), None, None, Some(GenerateFailed))
      case Answered(text) =>
        match codec.parse(FencedJson.CustomPayload(text))
        case Failure(_) => Submitted(idle, Some(prompt), None, None, Some(NotJson))
        case Success(parsed) =>
          // `String(customExperience)` of a string field is that string.
          var record := QnARecord(page.customDomain, page.customSkills, page.customExperience,
                                  codec.stringify(parsed), user.value.email, createdAt);
          match ReturnedId(insert)
          case None => Submitted(idle, Some(prompt), Some(record), None, Some(GenerateFailed))
          case Some(id) =>
            var entry := Config(id, page.customDomain, page.customSkills, page.customExperience);
            Submitted(Page(false, "", "", "", false, [entry] + page.configs), Some(prompt),
                      Some(record), Some(CustomQuestionsPage(id)), None)
  }

  /** A successful submit grows the list by one and keeps every earlier entry, in
      order, behind the new one. */
  lemma SubmitPrependsOnly(page: Page, user: Option<User>, configuredCount: Option<string>,
                           reply: Reply, codec: Codec, createdAt: string, insert: Insert)
    requires Succeeds(user, reply, codec, insert)
    ensures var r := OnSubmitCustom(page, user, configuredCount, reply, codec, createdAt, insert);
      && |r.page.configs| == |page.configs| + 1
      && r.page.configs[1..] == page.configs
      && r.page.configs[0].id == r.navigatedTo.value.id
  {
  }
}
