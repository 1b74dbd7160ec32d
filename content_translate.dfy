/**
 * The content script's `translateText`: ask the background to detect the language, pick the
 * target through the language mappings, ask for the translation and read the answer.
 * The runtime messaging is a parameter: a function from the message sent to what comes back.
 */
module ContentTranslate {
  import opened Wrappers
  import opened JsValues
  import opened Messages
  import opened ContentSettings
  import Background

  /** What `browser.runtime.sendMessage` gives: an answer, no answer (`undefined`), or a rejection. */
  datatype Delivery = Answered(reply: Reply) | NoAnswer | Thrown(message: string)

  type Channel = Message -> Delivery

  const ContextInvalidated := "Extension context invalidated"

  /** The TypeError raised by `response.translation` when no answer came. */
  const NoResponseError := "Cannot read properties of undefined (reading 'translation')"

  /** The translation (never empty), `null`, `null` after asking for a reload, or a re-thrown error. */
  datatype Outcome = Translated(translation: string) | NoTranslation | Reloading | Raised(message: string)

  /** The outcome together with the messages sent, in order. */
  datatype Exchange = Exchange(outcome: Outcome, sent: seq<Message>)

  function DetectMessage(text: string): Message {
    Message(DetectKind, text, None)
  }

  function TranslateMessage(text: string, targetLang: string): Message {
    Message(TranslateKind, text, Some(targetLang))
  }

  /** `detectResponse?.language || 'auto'`. */
  function SourceLanguage(detected: Delivery): (lang: JsValue)
    ensures Truthy(lang)
    ensures lang != Str(Background.AutoLanguage) ==> detected == Answered(LanguageReply(lang))
    ensures detected.Answered? && detected.reply.LanguageReply? && Truthy(detected.reply.language) ==>
      lang == detected.reply.language
  {
    var language := if detected.Answered? && detected.reply.LanguageReply? then detected.reply.language else Undefined;
    if Truthy(language) then language else Str(Background.AutoLanguage)
  }

  /** The `catch` clause: the invalidated-context error asks for a reload and yields `null`;
      every other error is re-thrown. */
  function Failure(message: string): (o: Outcome)
    ensures o.Reloading? <==> Contains(message, ContextInvalidated)
    ensures o.Raised? <==> !Contains(message, ContextInvalidated)
  {
    if Contains(message, ContextInvalidated) then Reloading else Raised(message)
  }

  /** `if (response.translation) return response.translation; return null;` */
  function ReadTranslation(response: Delivery): (o: Outcome)
    ensures o.Translated? <==> response.Answered? && response.reply.TranslationReply? && response.reply.translation != ""
    ensures o.Translated? ==> o.translation == response.reply.translation
    ensures response.Thrown? ==> o == Failure(response.message)
    ensures response.NoAnswer? ==> o == Failure(NoResponseError)
  {
    match response
    case Thrown(message) => Failure(message)
    case NoAnswer => Failure(NoResponseError)
    case Answered(reply) =>
      if reply.TranslationReply? && reply.translation != "" then Translated(reply.translation) else NoTranslation
  }

  /** `translateText(text)`. */
  function RequestTranslation(settings: Settings, send: Channel, text: string): (x: Exchange)
    ensures 1 <= |x.sent| <= 2 && x.sent[0] == DetectMessage(text)
    ensures |x.sent| == 1 <==> send(DetectMessage(text)).Thrown?
    ensures |x.sent| == 2 ==>
      x.sent[1] == TranslateMessage(text, GetTargetLanguage(settings, SourceLanguage(send(DetectMessage(text)))))
    ensures x.outcome.Translated? ==>
      (x.outcome.translation != "" && |x.sent| == 2 && send(x.sent[1]) == Answered(TranslationReply(x.outcome.translation)))
    ensures |x.sent| == 2 ==> x.outcome == ReadTranslation(send(x.sent[1]))
  {
    var detected := send(DetectMessage(text));
    if detected.Thrown? then
      Exchange(Failure(detected.message), [DetectMessage(text)])
    else
      var request := TranslateMessage(text, GetTargetLanguage(settings, SourceLanguage(detected)));
      Exchange(ReadTranslation(send(request)), [DetectMessage(text), request])
  }

  /** A failed or missing detection leaves the source language `auto` for the mapping lookup. */
  lemma UndetectedLanguageIsAuto(settings: Settings, send: Channel, text: string)
    requires send(DetectMessage(text)) == NoAnswer || (send(DetectMessage(text)).Answered? && send(DetectMessage(text)).reply.ErrorReply?)
    ensures RequestTranslation(settings, send, text).sent[1] ==
      TranslateMessage(text, GetTargetLanguage(settings, Str(Background.AutoLanguage)))
  {
  }

  /** An empty or missing `translation` yields `null`, and nothing is shown or cached for it. */
  lemma FalsyTranslationIsNull(settings: Settings, send: Channel, text: string)
    requires !send(DetectMessage(text)).Thrown?
    requires var x := RequestTranslation(settings, send, text);
      send(x.sent[1]) == Answered(TranslationReply("")) || (send(x.sent[1]).Answered? && send(x.sent[1]).reply.ErrorReply?)
    ensures RequestTranslation(settings, send, text).outcome == NoTranslation
  {
  }

  /** The invalidated-context error, from either message, yields `null` and a reload; when the
      detect message fails, nothing more is sent. */
  lemma InvalidatedContextReloads(settings: Settings, send: Channel, text: string, message: string)
    requires Contains(message, ContextInvalidated)
    ensures send(DetectMessage(text)) == Thrown(message) ==>
      RequestTranslation(settings, send, text) == Exchange(Reloading, [DetectMessage(text)])
    ensures var x := RequestTranslation(settings, send, text);
      |x.sent| == 2 && send(x.sent[1]) == Thrown(message) ==> x.outcome == Reloading
  {
  }

  /** Every other error, from either message, is re-thrown as it is. */
  lemma OtherErrorsRethrown(settings: Settings, send: Channel, text: string, message: string)
    requires !Contains(message, ContextInvalidated)
    ensures send(DetectMessage(text)) == Thrown(message) ==>
      RequestTranslation(settings, send, text) == Exchange(Raised(message), [DetectMessage(text)])
    ensures var x := RequestTranslation(settings, send, text);
      |x.sent| == 2 && send(x.sent[1]) == Thrown(message) ==> x.outcome == Raised(message)
  {
  }

  /** The channel to the background worker of `src/entrypoints/background.ts`. */
  function Connected(endpoint: Background.Endpoint): Channel {
    (m: Message) =>
      match Background.Dispatch(endpoint, m)
      case Some(reply) => Answered(reply)
      case None => NoAnswer
  }

  /**
   * End to end with the background worker: when the endpoint detects the language `lang`, the
   * translation is requested for the first mapping's target for `lang`, and the result is what
   * the endpoint's translation for that target shapes to (`null` when that is empty or an error).
   */
  lemma DetectedLanguageSelectsTarget(settings: Settings, endpoint: Background.Endpoint, text: string, data: JsValue, lang: string)
    requires Background.JsonBody(endpoint(Background.DetectQuery(text))) == Some(data)
    requires Index(data, 2) == Some(Str(lang)) && lang != ""
    ensures var x := RequestTranslation(settings, Connected(endpoint), text);
      var target := GetTargetLanguage(settings, Str(lang));
      && x.sent == [DetectMessage(text), TranslateMessage(text, target)]
      && x.outcome == match Background.TranslateText(endpoint, text, target)
                      case TranslationReply(t) => if t != "" then Translated(t) else NoTranslation
                      case _ => NoTranslation
  {
  }

  /** A backend that cannot be reached gives `null`: nothing to show. */
  lemma UnreachableBackendGivesNull(settings: Settings, endpoint: Background.Endpoint, text: string)
    requires forall q :: endpoint(q) == Background.NetworkError
    ensures RequestTranslation(settings, Connected(endpoint), text).outcome == NoTranslation
  {
  }
}
