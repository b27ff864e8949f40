/** The `useTranslatedText` hook: one run of its translation effect as a pure
    transition, and the `t(key)` lookup it returns. The module-level cache and the
    quota cooldown are passed in and out; the clock, the model's reply, the
    cancellation flag and `JSON.parse` are parameters. */
module TranslatedText {
  import opened Wrappers
  import opened Text
  import opened Json
  import opened Chat

  /** Five minutes, in milliseconds. */
  const CooldownMs: int := 5 * 60 * 1000

  /** The module-level state shared by every use of the hook: `langCache` and
      `UI_TRANSLATION_BLOCK_UNTIL`. */
  datatype Shared = Shared(cache: map<string, Json>, blockUntil: int)

  /** The hook's component state: `uiText` and `translating`. */
  datatype View = View(uiText: Json, translating: bool)

  /** The arguments of the hook and its current language. */
  datatype Request = Request(base: map<string, string>, namespace: string, language: string)

  /** The state after one run, and whether the model was asked. */
  datatype Run = Run(view: View, shared: Shared, called: bool)

  /** The saved language preference, or English when none (or "") is saved. */
  function InitialLanguage(stored: Option<string>): (r: string)
    ensures r != ""
    ensures stored.Some? && stored.value != "" ==> r == stored.value
    ensures stored.None? || stored.value == "" ==> r == English
  {
    OrElse(stored, English)
  }

  /** The language named in the prompt: Hindi for "hi", English for anything else. */
  function TargetLanguageName(language: string): (r: string)
    ensures r == "Hindi" <==> language == "hi"
    ensures r == "Hindi" || r == "English"
  {
    if language == "hi" then "Hindi" else "English"
  }

  function CacheKey(namespace: string, language: string): string {
    namespace + "_" + language
  }

  /** `langCache[key]` is truthy. */
  predicate CacheHit(cache: map<string, Json>, key: string) {
    key in cache && Truthy(cache[key])
  }

  /** One way /{[\s\S]*}/ matches: an opening brace at `p`, a closing one at `q`. */
  predicate BraceChoice(s: string, p: int, q: int) {
    0 <= p < q < |s| && s[p] == '{' && s[q] == '}'
  }

  /** The leftmost start, then the longest (greedy) span. */
  ghost predicate BraceSelected(s: string, p: int, q: int) {
    && BraceChoice(s, p, q)
    && (forall p', q' :: p' < p ==> !BraceChoice(s, p', q'))
    && (forall q' :: q' > q ==> !BraceChoice(s, p, q'))
  }

  /** Where `text.match(/{[\s\S]*}/)` matches: from the first `{` to the last `}`,
      provided that `}` comes after the `{`. */
  function BraceBounds(s: string): (r: Option<(nat, nat)>)
    ensures r.Some? ==> BraceSelected(s, r.value.0, r.value.1)
    ensures r.None? ==> forall p, q :: !BraceChoice(s, p, q)
  {
    match IndexFrom(s, "{", 0)
    case None =>
      assert forall p :: 0 <= p < |s| ==> s[p] != '{' by {
        forall p | 0 <= p < |s| ensures s[p] != '{' { OccursAtChar(s, '{', p); }
      }
      None
    case Some(p) =>
      OccursAtChar(s, '{', p);
      assert forall p' :: 0 <= p' < p ==> s[p'] != '{' by {
        forall p' | 0 <= p' < p ensures s[p'] != '{' { OccursAtChar(s, '{', p'); }
      }
      match LastIndexBefore(s, '}', |s|)
      case Some(q) => if p < q then Some((p, q)) else None
      case None => None
  }

  /** `match[0]`: the matched text, braces included. */
  function BraceSpan(s: string): (r: Option<string>)
    ensures r.Some? ==> |r.value| >= 2 && r.value[0] == '{' && r.value[|r.value| - 1] == '}'
    ensures r.Some? ==> IsSubstring(r.value, s)
    ensures r.None? <==> forall p, q :: !BraceChoice(s, p, q)
  {
    match BraceBounds(s)
    case Some((p, q)) =>
      assert OccursAt(s, s[p..q + 1], p);
      Some(s[p..q + 1])
    case None => None
  }

  /** The error message names a quota problem: it contains "429" or "quota". */
  predicate IsQuotaError(message: string)
    ensures IsQuotaError(message) <==>
      (exists i :: OccursAt(message, "429", i)) || (exists i :: OccursAt(message, "quota", i))
  {
    ContainsMeansOccurs(message, "429");
    ContainsMeansOccurs(message, "quota");
    Contains(message, "429") || Contains(message, "quota")
  }

  /** What the `try` block produced: the value to show and cache, or the message of
      what it threw (the model call, or `JSON.parse` of the braced span). Without a
      braced span the base text itself is the value. */
  function Settle(base: map<string, string>, reply: Reply, codec: Codec): (r: Result<Json>)
    // A failed model call reaches the catch with its own message.
    ensures reply.Threw? ==> r == Failure(reply.message)
    // A reply with no `{` before a `}` yields the base text, untranslated.
    ensures reply.Answered? && (forall p, q :: !BraceChoice(reply.text, p, q)) ==>
      r == Success(StringObject(base))
    // Otherwise only the span from the first `{` to the last `}` is parsed.
    ensures reply.Answered? && BraceBounds(reply.text).Some? ==>
      var (p, q) := BraceBounds(reply.text).value;
      r == codec.parse(reply.text[p..q + 1])
  {
    match reply
    case Threw(message) => Failure(message)
    case Answered(text) =>
      match BraceSpan(text)
      case Some(span) => codec.parse(span)
      case None => Success(StringObject(base))
  }

  /** One run of the effect. `now` is the clock when the cooldown is checked,
      `catchTime` the clock when a failure is caught, `before` the component state
      when the run starts, and `cancelled` whether the cleanup ran before the reply
      was handled. */
  function RunTranslation(req: Request, now: int, catchTime: int, s: Shared, before: View,
                          reply: Reply, cancelled: bool, codec: Codec): (r: Run)
    // The checks come in a fixed order: English, cooldown, cache, call.
    ensures r.called <==>
      req.language != English && now >= s.blockUntil
      && !CacheHit(s.cache, CacheKey(req.namespace, req.language))
    ensures req.language == English ==>
      r == Run(View(StringObject(req.base), false), s, false)
    ensures req.language != English && now < s.blockUntil ==>
      r == Run(View(StringObject(req.base), false), s, false)
    ensures req.language != English && now >= s.blockUntil
            && CacheHit(s.cache, CacheKey(req.namespace, req.language)) ==>
      r == Run(View(s.cache[CacheKey(req.namespace, req.language)], false), s, false)
    // A run that was not cancelled always ends with `translating` false.
    ensures !cancelled ==> !r.view.translating
    // The cache is written only by a successful, uncancelled call.
    ensures r.shared.cache != s.cache ==>
      r.called && !cancelled && Settle(req.base, reply, codec).Success?
    ensures r.called && !cancelled && Settle(req.base, reply, codec).Success? ==>
      var v := Settle(req.base, reply, codec).value;
      r.view.uiText == v && r.shared.cache == s.cache[CacheKey(req.namespace, req.language) := v]
    // A failure restores the base text unless cancelled.
    ensures r.called && !cancelled && Settle(req.base, reply, codec).Failure? ==>
      r.view.uiText == StringObject(req.base)
    // A cancelled call leaves the text as it was and `translating` set.
    ensures r.called && cancelled ==> r.view == View(before.uiText, true)
    // Only a quota failure moves the cooldown, to five minutes after it was caught.
    ensures r.shared.blockUntil ==
      if r.called && Settle(req.base, reply, codec).Failure?
         && IsQuotaError(Settle(req.base, reply, codec).message)
      then catchTime + CooldownMs else s.blockUntil
  {
    var baseText := StringObject(req.base);
    if req.language == English then Run(View(baseText, false), s, false)
    else if now < s.blockUntil then Run(View(baseText, false), s, false)
    else
      var key := CacheKey(req.namespace, req.language);
      if CacheHit(s.cache, key) then Run(View(s.cache[key], false), s, false)
      else
        match Settle(req.base, reply, codec)
        case Success(v) =>
          if cancelled then Run(View(before.uiText, true), s, true)
          else Run(View(v, false), s.(cache := s.cache[key := v]), true)
        case Failure(message) =>
          var s' := if IsQuotaError(message) then s.(blockUntil := catchTime + CooldownMs) else s;
          if cancelled then Run(View(before.uiText, true), s', true)
          else Run(View(baseText, false), s', true)
  }

  /** `t(key)`: `uiText[key] || baseText[key] || key`. */
  function T(uiText: Json, base: map<string, string>, key: string): (r: Json)
    ensures TruthyOpt(Lookup(uiText, key)) ==> r == Lookup(uiText, key).value
    ensures !TruthyOpt(Lookup(uiText, key)) ==>
      r == if key in base && base[key] != "" then JStr(base[key]) else JStr(key)
  {
    var own := Lookup(uiText, key);
    if TruthyOpt(own) then own.value
    else if key in base && base[key] != "" then JStr(base[key])
    else JStr(key)
  }

  // ---------------------------------------------------------------------------
  // Properties relating several runs and lookups.

  /** A label is never blank unless its key is. */
  lemma LabelNeverBlank(uiText: Json, base: map<string, string>, key: string)
    ensures Truthy(T(uiText, base, key)) || key == ""
  {
  }

  /** After an English run every label is the base text, or the key when the base
      text has none. */
  lemma EnglishShowsBaseLabels(req: Request, now: int, catchTime: int, s: Shared,
                               before: View, reply: Reply, cancelled: bool, codec: Codec,
                               key: string)
    requires req.language == English
    ensures var r := RunTranslation(req, now, catchTime, s, before, reply, cancelled, codec);
      T(r.view.uiText, req.base, key) ==
        if key in req.base && req.base[key] != "" then JStr(req.base[key]) else JStr(key)
  {
  }

  /** A successful translation is reused: the next run for the same namespace and
      language, once no cooldown is in force, shows it without asking the model. */
  lemma TranslationIsReused(req: Request, now: int, catchTime: int, s: Shared, before: View,
                            reply: Reply, codec: Codec,
                            now2: int, catchTime2: int, before2: View, reply2: Reply,
                            cancelled2: bool)
    requires req.language != English
    requires var r := RunTranslation(req, now, catchTime, s, before, reply, false, codec);
      r.called && Settle(req.base, reply, codec).Success?
      && Truthy(Settle(req.base, reply, codec).value)
    requires now2 >= s.blockUntil
    ensures var r := RunTranslation(req, now, catchTime, s, before, reply, false, codec);
      var r2 := RunTranslation(req, now2, catchTime2, r.shared, before2, reply2, cancelled2, codec);
      !r2.called && r2.view == r.view && r2.shared == r.shared
  {
  }

  /** A quota failure silences every namespace for five minutes: any run that starts
      before the cooldown ends shows base text and makes no call. */
  lemma QuotaFailureBlocksOtherRuns(req: Request, now: int, catchTime: int, s: Shared,
                                    before: View, reply: Reply, cancelled: bool, codec: Codec,
                                    req2: Request, now2: int, catchTime2: int, before2: View,
                                    reply2: Reply, cancelled2: bool)
    requires var r := RunTranslation(req, now, catchTime, s, before, reply, cancelled, codec);
      r.called && Settle(req.base, reply, codec).Failure?
      && IsQuotaError(Settle(req.base, reply, codec).message)
    requires now2 < catchTime + CooldownMs
    ensures var r := RunTranslation(req, now, catchTime, s, before, reply, cancelled, codec);
      var r2 := RunTranslation(req2, now2, catchTime2, r.shared, before2, reply2, cancelled2, codec);
      !r2.called && r2.view == View(StringObject(req2.base), false) && r2.shared == r.shared
  {
  }
}
