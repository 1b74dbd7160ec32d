/** The runtime messages the content script sends and the replies the background script answers with. */
module Messages {
  import opened Wrappers
  import opened JsValues

  /** `{ type, text, targetLang? }`: `kind` is the `type` field. */
  datatype Message = Message(kind: string, text: string, targetLang: Option<string>)

  /** `{ language }`, `{ translation }` or `{ error }`; an error reply carries no other field. */
  datatype Reply =
    | LanguageReply(language: JsValue)
    | TranslationReply(translation: string)
    | ErrorReply(error: string)

  const DetectKind := "detect"
  const TranslateKind := "translate"
}
