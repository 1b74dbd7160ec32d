/**
 * The content script's settings and the two pure helpers that read them:
 * `isRequiredKeyPressed` and `getTargetLanguage` (`src/entrypoints/content.ts`).
 */
module ContentSettings {
  import opened Wrappers
  import opened JsValues

  datatype LanguageMapping = LanguageMapping(sourceLang: string, targetLang: string)

  /** `keyToPress` is one of `ctrl`, `alt`, `cmd`, `opt` by its type, but whatever storage holds is
      taken as it is, so it is kept as a string. */
  datatype Settings = Settings(
    translationDelay: int,
    languageMappings: seq<LanguageMapping>,
    defaultTargetLang: string,
    pressToTranslate: bool,
    keyToPress: string)

  /** The settings the script starts with before storage is read. */
  const DefaultSettings := Settings(500, [], "en", true, "alt")

  /** The modifier state carried by a keyboard or mouse event, plus the key a keyboard event is for. */
  datatype KeyEvent = KeyEvent(key: string, ctrlKey: bool, altKey: bool, metaKey: bool)

  /** `isRequiredKeyPressed(e)`: outside press mode any event qualifies; in press mode `ctrl`
      reads the Control flag, `alt` and `opt` the Alt flag, `cmd` the Meta flag, and any other
      configured value accepts the event. */
  predicate IsRequiredKeyPressed(settings: Settings, e: KeyEvent)
    ensures !settings.pressToTranslate ==> IsRequiredKeyPressed(settings, e)
    ensures settings.pressToTranslate && settings.keyToPress == "ctrl" ==> (IsRequiredKeyPressed(settings, e) <==> e.ctrlKey)
    ensures settings.pressToTranslate && settings.keyToPress in {"alt", "opt"} ==> (IsRequiredKeyPressed(settings, e) <==> e.altKey)
    ensures settings.pressToTranslate && settings.keyToPress == "cmd" ==> (IsRequiredKeyPressed(settings, e) <==> e.metaKey)
    ensures settings.keyToPress !in {"ctrl", "alt", "cmd", "opt"} ==> IsRequiredKeyPressed(settings, e)
  {
    if !settings.pressToTranslate then true
    else if settings.keyToPress == "ctrl" then e.ctrlKey
    else if settings.keyToPress == "alt" then e.altKey
    else if settings.keyToPress == "cmd" then e.metaKey
    else if settings.keyToPress == "opt" then e.altKey
    else true
  }

  /** `m.sourceLang === lang`: a mapping only matches a string equal to its source language. */
  predicate Matches(m: LanguageMapping, lang: JsValue) {
    lang == Str(m.sourceLang)
  }

  /** `mappings.findIndex(m => m.sourceLang === lang)`, as an option. */
  function FirstMatch(mappings: seq<LanguageMapping>, lang: JsValue): (r: Option<nat>)
    ensures r.Some? ==> r.value < |mappings| && Matches(mappings[r.value], lang)
    ensures r.Some? ==> forall j :: 0 <= j < r.value ==> !Matches(mappings[j], lang)
    ensures r.None? ==> forall j :: 0 <= j < |mappings| ==> !Matches(mappings[j], lang)
  {
    if |mappings| == 0 then None
    else if Matches(mappings[0], lang) then Some(0)
    else
      match FirstMatch(mappings[1..], lang)
      case None => None
      case Some(k) => Some(k + 1)
  }

  /** `getTargetLanguage(sourceLang)`: the first matching mapping's target, else the default. */
  function GetTargetLanguage(settings: Settings, sourceLang: JsValue): (r: string)
    ensures (exists i :: 0 <= i < |settings.languageMappings| && Matches(settings.languageMappings[i], sourceLang))
      || r == settings.defaultTargetLang
  {
    match FirstMatch(settings.languageMappings, sourceLang)
    case Some(i) => settings.languageMappings[i].targetLang
    case None => settings.defaultTargetLang
  }

  /** First match wins: the target of the earliest mapping whose source is `lang`. */
  lemma TargetOfFirstMatch(settings: Settings, lang: string, i: nat)
    requires i < |settings.languageMappings|
    requires settings.languageMappings[i].sourceLang == lang
    requires forall j :: 0 <= j < i ==> settings.languageMappings[j].sourceLang != lang
    ensures GetTargetLanguage(settings, Str(lang)) == settings.languageMappings[i].targetLang
  {
    var r := FirstMatch(settings.languageMappings, Str(lang));
    assert Matches(settings.languageMappings[i], Str(lang));
  }

  /** With no mapping for `lang` the default target is used; a detected language that is not a
      string never matches. */
  lemma TargetWithoutMatch(settings: Settings, lang: JsValue)
    requires forall j :: 0 <= j < |settings.languageMappings| ==> Str(settings.languageMappings[j].sourceLang) != lang
    ensures GetTargetLanguage(settings, lang) == settings.defaultTargetLang
  {
  }

  /** The `key` value of a keyboard event for the configured modifier, when one is configured. */
  function ModifierKeyName(keyToPress: string): (name: Option<string>)
    ensures name.Some? <==> keyToPress in {"ctrl", "alt", "cmd", "opt"}
  {
    if keyToPress == "ctrl" then Some("Control")
    else if keyToPress == "alt" || keyToPress == "opt" then Some("Alt")
    else if keyToPress == "cmd" then Some("Meta")
    else None
  }

  /** A `keyup` event as a browser reports it for the key named `name`: a released modifier's own
      flag is already off. */
  predicate IsReleaseOf(e: KeyEvent, name: string) {
    && e.key == name
    && (name == "Control" ==> !e.ctrlKey)
    && (name == "Alt" ==> !e.altKey)
    && (name == "Meta" ==> !e.metaKey)
  }

  /** The key-up test with the release of the configured modifier included: every event the
      key-up handler accepts as written, and the release of the modifier itself. */
  predicate ReleasesRequiredKey(settings: Settings, e: KeyEvent) {
    IsRequiredKeyPressed(settings, e) || ModifierKeyName(settings.keyToPress) == Some(e.key)
  }

  /** As written, the key-up handler never recognises the release of the configured modifier:
      the release event no longer carries that modifier's flag. */
  lemma ReleaseMissedAsWritten(settings: Settings, e: KeyEvent)
    requires settings.pressToTranslate && settings.keyToPress in {"ctrl", "alt", "cmd", "opt"}
    requires IsReleaseOf(e, ModifierKeyName(settings.keyToPress).value)
    ensures !IsRequiredKeyPressed(settings, e)
  {
  }

  /** The corrected test recognises the release of the configured modifier and still accepts
      everything the written test accepts. */
  lemma ReleaseRecognised(settings: Settings, e: KeyEvent)
    ensures settings.keyToPress in {"ctrl", "alt", "cmd", "opt"} ==>
      (IsReleaseOf(e, ModifierKeyName(settings.keyToPress).value) ==> ReleasesRequiredKey(settings, e))
    ensures IsRequiredKeyPressed(settings, e) ==> ReleasesRequiredKey(settings, e)
    ensures ReleasesRequiredKey(settings, e) && !IsRequiredKeyPressed(settings, e) ==>
            ModifierKeyName(settings.keyToPress) == Some(e.key)
  {
  }
}
