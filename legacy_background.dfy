/**
 * The older background script `src/background.ts`. Its `translateText` has the same body as the
 * one in `src/entrypoints/background.ts`; its listener answers only `translate` messages and calls
 * `translateText(request.text)` without a target, so the target is always the default `en`.
 */
module LegacyBackground {
  import opened Wrappers
  import opened Messages
  import Background

  /** `translateText(text, targetLang = 'en')` of the older script. */
  function TranslateText(endpoint: Background.Endpoint, text: string, targetLang: string): (r: Reply)
    ensures r.TranslationReply? || r == ErrorReply(Background.TranslateFailure)
    ensures r == Background.TranslateText(endpoint, text, targetLang)
  {
    match Background.JsonBody(endpoint(Background.TranslateQuery(text, targetLang)))
    case None => ErrorReply(Background.TranslateFailure)
    case Some(data) => Background.ShapeTranslation(data)
  }

  /** The message listener of the older script: it answers `translate` messages only, with a
      translation or the translation error. */
  function Dispatch(endpoint: Background.Endpoint, request: Message): (r: Option<Reply>)
    ensures r.Some? <==> request.kind == TranslateKind
    ensures r.Some? ==> r.value.TranslationReply? || r.value == ErrorReply(Background.TranslateFailure)
  {
    if request.kind == TranslateKind then
      Some(TranslateText(endpoint, request.text, Background.DefaultTarget))
    else None
  }

  /** Only `translate` is answered, and a requested target language is ignored: the answer is the
      newer listener's answer to the same request without a target. */
  lemma DispatchIgnoresTarget(endpoint: Background.Endpoint, request: Message)
    ensures request.kind == TranslateKind ==>
      Dispatch(endpoint, request) == Background.Dispatch(endpoint, request.(targetLang := None))
    ensures request.kind == TranslateKind ==>
      Dispatch(endpoint, request) == Dispatch(endpoint, request.(targetLang := Some("fr")))
  {
  }

  /** What the older listener answers depends only on the endpoint's `en` answer for the text. */
  lemma DispatchAlwaysEnglish(e1: Background.Endpoint, e2: Background.Endpoint, request: Message)
    requires e1(Background.TranslateQuery(request.text, "en")) == e2(Background.TranslateQuery(request.text, "en"))
    ensures Dispatch(e1, request) == Dispatch(e2, request)
  {
  }
}
