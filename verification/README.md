# intervuAI: a Dafny model of the AI-reply handling

intervuAI is a web application that generates mock-interview question sets with a hosted
generative model. It also translates its user interface into Hindi through the same model.
This project models the small amount of pure logic inside its React handlers and its
translation hook. Every call into the model, the database, the clock and `JSON.parse` /
`JSON.stringify` becomes a parameter. Each handler becomes a pure function from its
inputs to the state it leaves behind.

- `Text`: the JavaScript string primitives the handlers rely on. These are `includes`,
  `trim`, and the whitespace class `\s`; a first-occurrence search (`IndexFrom`) is the
  search behind `includes` and the regular-expression scans. `trim` and `\s` use one
  whitespace set: WhiteSpace and LineTerminator from sections 12.2 and 12.3 of ECMA-262.
- `FencedJson`: extracting the payload from a reply that may wrap it in a "```json"
  fence. Both regular expressions in use are modelled twice. One model is a declarative
  description of what a backtracking matcher selects: the leftmost start, the longest
  greedy `\s*`, the shortest lazy capture. The other is a direct computation. Lemmas prove
  the two agree, that the match starts at the first marker, and that the capture contains
  no fence. Further lemmas prove the payload is a trimmed piece of the reply, and that the
  two variants give the same payload.
- `TranslatedText`: `lib/useTranslatedText.js`. One run of its effect is a transition over
  the language, the clock, the shared cache, the quota cooldown, the model's reply and the
  cancellation flag. The module also models the brace-span extraction and the `t(key)`
  fallback chain.
- `AddNewInterview`, `CustomQuestions`: the two submit handlers. These are the prompt
  choices, the stored records, parse-or-abort, the navigate-on-id guard, prepending to the
  list and resetting the form.
- `HowItWorks`: translating the step list, with a per-language cache, the English
  short-circuit, the `title`/`description` replacer list, the fallback to the built-in
  steps and the dividers between rendered steps.
- `Json`, `Chat`, `Wrappers`: JSON values with JavaScript truthiness, the model's reply and
  the shared question-count setting, `Option`/`Result`.

Neither handler tries `JSON.parse` on the whole reply before the fence search. The custom
question-set handler parses only the extracted payload (app/dashboard/questions/page.jsx:106-124).
The new-interview handler stores the extracted text without parsing it
(app/dashboard/_components/AddNewInterview.jsx:98-105).

## Model

| member | source | states |
|---|---|---|
| `FencedJson.FindMatch` | app/dashboard/_components/AddNewInterview.jsx:98-99 | the match found is at the first position where an attempt succeeds, and no attempt succeeds anywhere when none is found |
| `FencedJson.LazyMatchIsSelected` | app/dashboard/_components/AddNewInterview.jsx:98-99 | the computed match of /```json\s*([\s\S]*?)```/ is exactly the one a backtracking matcher picks: leftmost start, longest leading whitespace, shortest capture ending at a fence; with no match there is no way to match at all |
| `FencedJson.TrimmedMatchIsSelected` | app/dashboard/questions/page.jsx:106-107 | the same for /```json\s*([\s\S]*?)\s*```/: same start and closing fence, with the capture ending where the whitespace before that fence begins |
| `FencedJson.LazyCapture` | app/dashboard/_components/AddNewInterview.jsx:98-99 | `match(...)?.[1]` is present exactly when the pattern matches; it is the text that starts where the leading whitespace ends and is followed directly by a fence |
| `FencedJson.TrimmedCapture` | app/dashboard/questions/page.jsx:106-107 | `match[1]` of the trimming pattern is present exactly when the lazy capture is, and is that capture without its trailing whitespace |
| `FencedJson.FirstMarkerDecides` | app/dashboard/_components/AddNewInterview.jsx:98-99 | a match exists exactly when the first "```json" has a "```" after it; it starts at that marker and closes at the first such fence |
| `FencedJson.CapturesHaveNoFence` | app/dashboard/_components/AddNewInterview.jsx:98 | neither captured region contains "```", because the capture is lazy |
| `FencedJson.InterviewPayload` | app/dashboard/_components/AddNewInterview.jsx:101 | the payload has no leading or trailing whitespace |
| `FencedJson.FencedInterviewPayload` | app/dashboard/_components/AddNewInterview.jsx:98-101 | with a fence after the first marker and non-blank text between them, the payload is that text trimmed |
| `FencedJson.UnfencedInterviewPayload` | app/dashboard/_components/AddNewInterview.jsx:101 | with no fence after the first marker, or only whitespace between them, the payload is the whole reply trimmed |
| `FencedJson.InterviewPayloadIsTrimmedSubstring` | app/dashboard/_components/AddNewInterview.jsx:101 | the payload is always a substring of the reply with no whitespace at either end |
| `FencedJson.CustomPayload` | app/dashboard/questions/page.jsx:109-114 | the custom-set payload has no leading or trailing whitespace |
| `FencedJson.PayloadVariantsAgree` | app/dashboard/questions/page.jsx:106-114 | the two patterns, with their different fallback tests (trimmed capture empty, capture empty), give the same payload for every reply |
| `Text.TrimUnique` | app/dashboard/_components/AddNewInterview.jsx:101 | `trim` returns the middle of any split of the string into whitespace, a part with no whitespace at either end, and whitespace |
| `TranslatedText.InitialLanguage` | lib/useTranslatedText.js:24 | the stored language preference is used when present and non-empty, English otherwise |
| `TranslatedText.TargetLanguageName` | lib/useTranslatedText.js:61 | the prompt asks for Hindi exactly when the language is "hi", English for every other language |
| `TranslatedText.BraceBounds` | lib/useTranslatedText.js:72 | /{[\s\S]*}/ matches from the first `{` to the last `}` after it, as a backtracking matcher selects (leftmost, greedy); no match exactly when no `{` precedes a `}` |
| `TranslatedText.BraceSpan` | lib/useTranslatedText.js:72-73 | the extracted text is a piece of the reply that starts with `{` and ends with `}`, and is absent exactly when no `{` precedes a `}` |
| `TranslatedText.IsQuotaError` | lib/useTranslatedText.js:84 | a failure counts as a quota error exactly when its message contains "429" or "quota" |
| `TranslatedText.Settle` | lib/useTranslatedText.js:69-73 | a failed model call passes its message to the catch; a reply with no `{` before a `}` yields the base text; otherwise only the span from the first `{` to the last `}` is parsed |
| `TranslatedText.RunTranslation` | lib/useTranslatedText.js:32-92 | checks run in the order English, cooldown, cache, call; English and an active cooldown show base text without a call, even with a cached translation; a cache hit under namespace_language shows it without a call; the cache is written only by a successful, uncancelled call; a failure restores base text unless cancelled; only a failure whose message contains "429" or "quota" sets the cooldown to 300000 ms after the catch; every uncancelled run ends with translating false |
| `TranslatedText.T` | lib/useTranslatedText.js:102 | `t(key)` is the translated value when truthy, else the base value when non-empty, else the key |
| `TranslatedText.EnglishShowsBaseLabels` | lib/useTranslatedText.js:37-41 | after an English run every label is the base text, or the key when the base has none |
| `TranslatedText.TranslationIsReused` | lib/useTranslatedText.js:50-55 | after a successful uncancelled translation, the next run for the same namespace and language shows it again without a call |
| `TranslatedText.QuotaFailureBlocksOtherRuns` | lib/useTranslatedText.js:44-48 | after a quota failure, any run of any namespace that starts within five minutes of the catch shows base text and makes no call |
| `AddNewInterview.LanguageInstruction` | app/dashboard/_components/AddNewInterview.jsx:60-71 | the Hindi instruction exactly for "hi", the English one for every other language |
| `Chat.QuestionCount` | app/dashboard/_components/AddNewInterview.jsx:80-82 | the configured count when set and non-empty, 8 otherwise; the custom question-set prompt uses the same rule (app/dashboard/questions/page.jsx:85) |
| `AddNewInterview.OnSubmit` | app/dashboard/_components/AddNewInterview.jsx:55-126 | loading is false on every path; the extracted payload is stored as it is, without a JSON check, whenever the model replied; the dialog closes and the page changes only when the insert returns a non-empty mockId, to that id's interview page; model or insert errors raise an alert |
| `AddNewInterview.StoredPayloadIsExtracted` | app/dashboard/_components/AddNewInterview.jsx:97-106 | whatever text the model replies, a record is stored whose payload is the extracted text `InterviewPayload` computes, unchecked as JSON: a trimmed substring of the reply |
| `CustomQuestions.ReturnedId` | app/dashboard/questions/page.jsx:140-143 | an id counts only when the first returned row has one and it is not 0 |
| `CustomQuestions.OnSubmitCustom` | app/dashboard/questions/page.jsx:75-167 | without a user nothing is generated, stored or navigated and the page is unchanged; a payload that does not parse stops before the insert; the stored jsonQnA is the re-serialised parse and experience is the field's string; only a returned id navigates; on success the new entry is prepended, the fields reset to "" and the dialog closes; every other failure changes only loading, which ends false |
| `CustomQuestions.SubmitPrependsOnly` | app/dashboard/questions/page.jsx:145-153 | a successful submit adds exactly one entry in front, with the returned id, and keeps the earlier entries in order |
| `Json.KeepMembers` | app/dashboard/how-it-works/page.jsx:122 | the replacer list keeps every array element and exactly the object members named in the list, each carrying its own value filtered the same way at every depth (section 25.5.2 of ECMA-262) |
| `Json.KeepMembersRestricts` | app/dashboard/how-it-works/page.jsx:122 | after filtering, no object at any depth has a member outside the list |
| `HowItWorks.BaseStepsValue` | app/dashboard/how-it-works/page.jsx:14-99 | the built-in list has the twelve steps, in order, as objects |
| `HowItWorks.PromptStepsKeepTitleAndDescription` | app/dashboard/how-it-works/page.jsx:122 | the serialised prompt keeps every step in order with only its title and description; id and image are dropped |
| `HowItWorks.TranslateSteps` | app/dashboard/how-it-works/page.jsx:111-149 | English sets the translation to null without a call; a cache hit under howSteps_language is used without a call; the reply is parsed as it is and, on success, cached and used; on any error state and cache are unchanged |
| `HowItWorks.FinalSteps` | app/dashboard/how-it-works/page.jsx:151 | the translated steps render when truthy, the built-in steps otherwise |
| `HowItWorks.EnglishRendersBaseSteps` | app/dashboard/how-it-works/page.jsx:113 | for English the built-in steps render, whatever was shown or cached before |
| `HowItWorks.TranslationIsReused` | app/dashboard/how-it-works/page.jsx:115-119 | a truthy translation that parsed is reused for the same language without a call; a reply parsing to `null`, `0`, `false` or `""` is cached but not reused, because the cache test checks truthiness |
| `HowItWorks.DividersAsWritten` | app/dashboard/how-it-works/page.jsx:238 | as written, a divider follows the rendered step at index i exactly when i is below the built-in list's length minus one |
| `HowItWorks.Dividers` | app/dashboard/how-it-works/page.jsx:238 | corrected: a divider follows a rendered step exactly when another rendered step follows it |
| `HowItWorks.ShortTranslationGetsTrailingDivider` | app/dashboard/how-it-works/page.jsx:238 | a three-step translation gets a divider after its last step as written, and not with the corrected rule |
| `HowItWorks.DividersAgreeAtBaseLength` | app/dashboard/how-it-works/page.jsx:238 | when as many steps render as the built-in list has, the two rules agree |

## Left out

- The model call (`chatSession.sendMessage` and `response.text()`): its outcome is a parameter, the reply text or the message of what it threw.
- `JSON.parse` and `JSON.stringify`: a `Codec` parameter. A parse either yields a value or fails with a message. The message matters because the hook's catch tests it for "429" and "quota".
- Database inserts, the generated uuid and `new Date().toISOString()`: the returned rows, the id and the timestamp are parameters. The configured-list fetch on the questions page (app/dashboard/questions/page.jsx:169-196) is a database read and is not modelled.
- The prompts' fixed wording: the two question-generation prompts are records of what they are built from. The two translation prompts are not built; of them only the target language (`TranslatedText.TargetLanguageName`) and the filtered step list of the steps page (`HowItWorks.PromptSteps`) are modelled, and `JSON.stringify(baseText)` is not.
- `Date.now()`: the hook reads the clock twice, at the cooldown check and in the catch. Both readings are parameters.
- React effect scheduling and the dependency list: a run is one call, and `cancelled` is its value when the reply is handled. The hook reads `appLanguage` from `localStorage` once, on mount (lib/useTranslatedText.js:21-26); that reading is the `stored` parameter of `TranslatedText.InitialLanguage`. The hook neither listens for language-change events nor writes the preference. The intermediate `translating = true` render is not modelled, only the state after the run.
- Two hook instances racing on the shared cache: runs are sequential.
- The server-side early return (lib/useTranslatedText.js:33): effects run only in the browser.
- Property lookup on non-objects and inherited properties: `uiText[key]` is an own member of an object, or undefined. For example `t("toString")` would find a prototype function in the application.
- Strings are sequences of Unicode scalar values, not UTF-16 code units. JSON numbers are exact rationals. Object member order is not kept.
- Alerts are reported as which alert was shown, not its translated text.
- JSX rendering, styling, the zoom overlay, scrolling, `handleDomainClick` and navigation beyond the route reached. Rendering a truthy translated value that is not an array would throw in the page; the divider functions return nothing for it.
- Proctoring, violation counting and report scoring do not appear in the modelled files. The video upload route, route protection, sign-out, theme toggle, layout and the upgrade page are wrappers over libraries and are not part of this model.

## Findings

| source | as written | input that shows it | evidently intended | confidence | as-written member | corrected member |
|---|---|---|---|---|---|---|
| app/dashboard/how-it-works/page.jsx:238 | the divider test compares the index with the built-in `steps.length - 1` while the list rendered is `finalSteps` | a translated reply that is an array of 3 steps: a divider is drawn after the third, last, step (2 < 11) | a divider between consecutive rendered steps, `index < finalSteps.length - 1` | not executed; medium | `HowItWorks.ShortTranslationGetsTrailingDivider` (on `HowItWorks.DividersAsWritten`) | `HowItWorks.Dividers` |
