/** The "How it works" page: translating its step list through the model with a
    per-language cache, falling back to the built-in steps, and the dividers drawn
    between rendered steps. The model call and `JSON.parse` are parameters; the
    `window.translationCache` global is a map passed in and out. */
module HowItWorks {
  import opened Wrappers
  import opened Json
  import opened Chat

  /** A step of the built-in list. */
  datatype Step = Step(id: string, title: string, image: string, description: string)

  const BaseSteps: seq<Step> := [
    Step("signup", "1. Sign Up", "/screenshots/signup.png",
      "Create your account using your email or Google sign-in to get started with your mock interview journey."),
    Step("signin", "2. Sign In", "/screenshots/signin.png",
      "Log in securely to access your personalized dashboard and all interview tools anytime."),
    Step("dashboard", "3. Dashboard", "/screenshots/dashboard.png",
      "Get a complete overview of your mock interviews, track your progress, and revisit past feedback and performance insights."),
    Step("create_mock", "4. Create New Mock Interview", "/screenshots/create_mock.png",
      "Start a new interview by selecting your preferred role, experience level, and domain to generate relevant questions."),
    Step("get_started", "5. Let\U{2019}s Get Started", "/screenshots/get_started.png",
      "Review your selections and click \U{2018}Get Started\U{2019} to begin your interactive mock interview."),
    Step("interview", "6. Interview Page", "/screenshots/interview.png",
      "Respond to each question verbally. The system records and analyzes your answers using AI to generate insights."),
    Step("feedback", "7. Feedback Page", "/screenshots/feedback.png",
      "Receive AI-based feedback for every question \U{2014} including performance scores, tone analysis, and improvement tips."),
    Step("questions", "8. Question Selection (Domain)", "/screenshots/quesDomain.png",
      "Choose your preferred domain (like Frontend, Backend, Data Science, etc.) \U{2014} questions are generated specifically for your selection."),
    Step("questions1", "9. Questions Section (Experience)", "/screenshots/queExperience.png",
      "Select your experience level (0\U{2013}2, 2\U{2013}5, or 5+ years). The difficulty and depth of questions adapt to your level."),
    Step("questions2", "10. Questions Section (Questions with Answers)", "/screenshots/QuesAns.png",
      "Preview the set of interview questions along with model answers before starting your session to get familiar with what\U{2019}s coming."),
    Step("upgrade", "11. Upgrade", "/screenshots/upgrade.png",
      "Unlock premium features like unlimited interviews, detailed analytics, advanced AI feedback, and career growth insights by upgrading your plan."),
    Step("payment", "12. Payment", "/screenshots/payment.png",
      "Securely complete your upgrade using multiple payment options to access all premium tools.")
  ]

  /** The members sent to the model: the replacer list of the serialisation. */
  const PromptFields: set<string> := {"title", "description"}

  /** A step as a JavaScript object. */
  function StepValue(st: Step): Json {
    JObj(map["id" := JStr(st.id), "title" := JStr(st.title), "image" := JStr(st.image),
             "description" := JStr(st.description)])
  }

  /** The built-in `steps` array. */
  function BaseStepsValue(): (r: Json)
    ensures r.JArr? && |r.items| == |BaseSteps|
    ensures forall i :: 0 <= i < |BaseSteps| ==> r.items[i] == StepValue(BaseSteps[i])
  {
    JArr(seq(|BaseSteps|, i requires 0 <= i < |BaseSteps| => StepValue(BaseSteps[i])))
  }

  /** The value `JSON.stringify(steps, ["title", "description"], 2)` serialises
      (the two-space layout of the text is not modelled). */
  function PromptSteps(): Json {
    KeepMembers(BaseStepsValue(), PromptFields)
  }

  /** The prompt carries every step, in order, with its title and description and
      without its id or image. */
  lemma PromptStepsKeepTitleAndDescription()
    ensures PromptSteps().JArr? && |PromptSteps().items| == |BaseSteps|
    ensures forall i :: 0 <= i < |BaseSteps| ==>
      PromptSteps().items[i] ==
        JObj(map["title" := JStr(BaseSteps[i].title), "description" := JStr(BaseSteps[i].description)])
  {
  }

  function CacheKey(language: string): string {
    "howSteps_" + language
  }

  /** The page state after the effect (`translatedSteps`, `null` being `JNull`), the
      cache after it, and whether the model was asked. */
  datatype Translation = Translation(translated: Json, cache: map<string, Json>, called: bool)

  /** `translateSteps`, run when the language changes. */
  function TranslateSteps(language: string, translated: Json, cache: map<string, Json>,
                          reply: Reply, codec: Codec): (r: Translation)
    ensures language == English ==> r == Translation(JNull, cache, false)
    ensures r.called <==>
      language != English && !(CacheKey(language) in cache && Truthy(cache[CacheKey(language)]))
    ensures language != English && CacheKey(language) in cache && Truthy(cache[CacheKey(language)]) ==>
      r == Translation(cache[CacheKey(language)], cache, false)
    // The reply is parsed as it is, with no fence stripping.
    ensures r.called && reply.Answered? && codec.parse(reply.text).Success? ==>
      var v := codec.parse(reply.text).value;
      r.translated == v && r.cache == cache[CacheKey(language) := v]
    // Any error leaves the state and the cache as they were.
    ensures r.called && !(reply.Answered? && codec.parse(reply.text).Success?) ==>
      r.translated == translated && r.cache == cache
  {
    if language == English then Translation(JNull, cache, false)
    else
      var key := CacheKey(language);
      if key in cache && Truthy(cache[key]) then Translation(cache[key], cache, false)
      else
        match reply
        case Threw(_) => Translation(translated, cache, true)
        case Answered(text) =>
          match codec.parse(text)
          case Success(v) => Translation(v, cache[key := v], true)
          case Failure(_) => Translation(translated, cache, true)
  }

  /** `translatedSteps || steps`. */
  function FinalSteps(translated: Json): (r: Json)
    ensures Truthy(translated) ==> r == translated
    ensures !Truthy(translated) ==> r == BaseStepsValue()
  {
    if Truthy(translated) then translated else BaseStepsValue()
  }

  /** For English the built-in steps render, whatever was shown or cached before. */
  lemma EnglishRendersBaseSteps(translated: Json, cache: map<string, Json>, reply: Reply,
                                codec: Codec)
    ensures FinalSteps(TranslateSteps(English, translated, cache, reply, codec).translated)
            == BaseStepsValue()
  {
  }

  /** A truthy translation that parsed is reused for the same language without a call. */
  lemma TranslationIsReused(language: string, translated: Json, cache: map<string, Json>,
                            reply: Reply, codec: Codec, translated2: Json, reply2: Reply)
    requires var r := TranslateSteps(language, translated, cache, reply, codec);
      r.called && reply.Answered? && codec.parse(reply.text).Success?
      && Truthy(codec.parse(reply.text).value)
    ensures var r := TranslateSteps(language, translated, cache, reply, codec);
      var r2 := TranslateSteps(language, translated2, r.cache, reply2, codec);
      !r2.called && r2.translated == r.translated && r2.cache == r.cache
  {
  }

  // ---------------------------------------------------------------------------
  // Dividers between rendered steps.

  /** As written: a divider follows the step at `index` when `index` is below the
      length of the built-in list minus one, whatever list is rendered. */
  function DividersAsWritten(rendered: Json): (r: Option<seq<bool>>)
    ensures r.Some? <==> rendered.JArr?
    ensures r.Some? ==> |r.value| == |rendered.items|
    ensures r.Some? ==> forall i :: 0 <= i < |r.value| ==> r.value[i] == (i < |BaseSteps| - 1)
  {
    match rendered
    case JArr(xs) => Some(seq(|xs|, i requires 0 <= i < |xs| => i < |BaseSteps| - 1))
    case _ => None
  }

  /** Corrected: a divider follows a rendered step exactly when another rendered step
      follows it. A rendered value that is not an array has no steps to separate. */
  function Dividers(rendered: Json): (r: Option<seq<bool>>)
    ensures r.Some? <==> rendered.JArr?
    ensures r.Some? ==> |r.value| == |rendered.items|
    ensures r.Some? ==> forall i :: 0 <= i < |r.value| ==> (r.value[i] <==> i + 1 < |r.value|)
  {
    match rendered
    case JArr(xs) => Some(seq(|xs|, i requires 0 <= i < |xs| => i < |xs| - 1))
    case _ => None
  }

  /** A translation with three steps gets a divider after its last step as written;
      the corrected rule draws one only between steps. */
  lemma ShortTranslationGetsTrailingDivider()
    ensures var t := JArr([JObj(map[]), JObj(map[]), JObj(map[])]);
      && DividersAsWritten(FinalSteps(t)) == Some([true, true, true])
      && Dividers(FinalSteps(t)) == Some([true, true, false])
  {
    var t := JArr([JObj(map[]), JObj(map[]), JObj(map[])]);
    assert DividersAsWritten(FinalSteps(t)).value == [true, true, true];
    assert Dividers(FinalSteps(t)).value == [true, true, false];
  }

  /** When the rendered list has as many steps as the built-in one (in particular for
      the built-in list itself) the two rules agree. */
  lemma DividersAgreeAtBaseLength(rendered: Json)
    requires rendered.JArr? && |rendered.items| == |BaseSteps|
    ensures DividersAsWritten(rendered) == Dividers(rendered)
  {
  }
}
