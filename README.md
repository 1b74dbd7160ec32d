# Hover-translate browser extension, modelled in Dafny

The extension translates text on a web page. It has two parts.

- **Content script** (`src/entrypoints/content.ts`). It watches the pointer, the keyboard and the text selection. When a translation is wanted it finds the text: the selection if there is one, otherwise the word under the pointer. It then asks the background worker twice, first to detect the language and then to translate into the target that the user's language mappings pick. The result goes in a popup next to the pointer.
- **Background worker** (`src/entrypoints/background.ts`). It answers `detect` and `translate` messages from the `translate_a/single` endpoint and shapes the JSON that comes back. The older `src/background.ts` is a worker of the same kind that only answers `translate`.

The content script runs in one of two modes.

- **Press mode.** Translation happens only while the configured modifier (`ctrl`, `alt`, `cmd` or `opt`) is held. Pressing the key translates at the last pointer position. After that, pointer moves re-show the last result. Releasing the key is meant to clear the key state, the popup, the timeouts and the cache. As written, the key-up test misses the release of the modifier itself, so only the corrected test does this (see Findings).
- **Hover mode.** Every pointer move restarts the hover timeout. A change to a non-empty selection restarts the selection timeout; an empty selection hides the popup instead. When a timeout fires, the text under the stored point, or at the selection's corner, is translated.

The `mouseout` listener is registered on the document, and `mouseout` bubbles. So `handleMouseOut` runs each time the pointer leaves any element, not only when it leaves the window. In press mode it drops the key state and the cache each time, so moves with the key still held translate nothing until the key goes down again.

The project has these modules:

- `JsValues`: the JavaScript value semantics the code relies on (truthiness, indexing that throws on `null`/`undefined`, `join`, `filter(Boolean)`, `trim`, `includes`).
- `Words`: the word-boundary part of `getWordAtPoint`.
- `Messages`: the runtime messages and replies.
- `Background` and `LegacyBackground`: the two workers, as pure functions of an endpoint.
- `ContentSettings`: the settings, `isRequiredKeyPressed` and `getTargetLanguage`.
- `ContentTranslate`: the content script's `translateText`, as a pure function of the messaging channel.
- `ContentState`: the content script as a state machine. It has one function per handler, an invariant that every handler keeps (the key-up handler both as written and as corrected), and the lemmas about handleTranslation and the handlers.
- `ContentScript`: the class `Controller`. Its fields are the variables the script closes over, and its methods update them step by step. Each method is proved to leave exactly the state that the matching `ContentState` function gives, and each handler method keeps the invariant.

In these places the model follows the code, which may be unexpected:

- In hover mode, a mouse-out clears the timeouts and hides the popup, but it keeps the translation cache (`content.ts:351-355`).
- A forced request skips only press mode's "show the last result" shortcut. A text equal to the cached one is still served from the cache (`content.ts:243-259`).
- The selection timeout translates at the rectangle's left and bottom, and the request is not forced (`content.ts:304-310`).
- Press mode's shortcut shows the last result whatever text is now under the pointer (`content.ts:243-247`).
- There is no map of requests in flight.

## Model

| member | source | states |
|---|---|---|
| JsValues.Index | src/entrypoints/background.ts:34 | Property access throws exactly when the value is `null` or `undefined`. An array gives its element, or `undefined` past the end. An object gives the property named by the index's decimal digits, or `undefined`. A boolean or a number gives `undefined`. |
| JsValues.NatToString | src/entrypoints/background.ts:34 | The property name an index reads is a non-empty string of decimal digits, without a leading zero, whose decimal value is the index: `String(n)`. |
| JsValues.SplitJoin | src/entrypoints/background.ts:57-60 | Splitting the joined string at the separator gives the pieces back, when no piece holds the separator. This is the inverse of `join`. |
| JsValues.JoinLength | src/entrypoints/background.ts:60 | The joined string is as long as its pieces plus one separator between each pair. |
| JsValues.ElementStrings | src/entrypoints/background.ts:60 | `join` writes one string per element. |
| JsValues.FilterTruthy | src/entrypoints/background.ts:59 | `filter(Boolean)` gives only truthy elements and never more elements than it was given. |
| JsValues.FilterTruthyAppend | src/entrypoints/background.ts:59 | Filtering a concatenation filters each part and concatenates the results. With FilterTruthySingle this fixes order and multiplicity. |
| JsValues.FilterTruthySingle | src/entrypoints/background.ts:59 | One element is kept exactly when it is truthy. |
| JsValues.FilterTruthyMembers | src/entrypoints/background.ts:59 | Every truthy element is kept, and every kept value was an element. |
| JsValues.TrimStartRemovesWhiteSpace | src/entrypoints/content.ts:114 | Every character that trimming the start removes is whitespace. |
| JsValues.TrimEndRemovesWhiteSpace | src/entrypoints/content.ts:114 | Every character that trimming the end removes is whitespace. |
| JsValues.TrimStart | src/entrypoints/content.ts:114 | Trimming the start leaves a suffix of the string that does not start with whitespace. |
| JsValues.TrimEnd | src/entrypoints/content.ts:114 | Trimming the end leaves a prefix of the string that does not end with whitespace. |
| JsValues.Trim | src/entrypoints/content.ts:114 | `trim` gives a string that is no longer than the input and neither starts nor ends with whitespace. |
| JsValues.TrimUnchanged | src/entrypoints/content.ts:158 | A string that does not start or end with whitespace is left unchanged by `trim`. |
| JsValues.TrimEmpty | src/entrypoints/content.ts:114 | `trim` gives the empty string exactly when the string is all whitespace. |
| JsValues.ContainsAt | src/entrypoints/content.ts:198 | `includes` holds exactly when the needle occurs at some index of the string. |
| JsValues.OccurrenceOfContains | src/entrypoints/content.ts:198 | When `includes` holds, the needle occurs at some index of the string. |
| JsValues.ContainsOfOccurrence | src/entrypoints/content.ts:198 | An occurrence of the needle at any index makes `includes` hold. |
| Words.TrailingRun | src/entrypoints/content.ts:152-155 | The match is the longest suffix made of word characters: it is a suffix, all of it is word characters, and the character before it is not one. |
| Words.LeadingRun | src/entrypoints/content.ts:153-156 | The match is the longest prefix made of word characters, in the same three parts. |
| Words.RunStart | src/entrypoints/content.ts:152 | The start of the word-character run that ends at the given index: every character from it on is a word character, and the one before it is not. |
| Words.RunEnd | src/entrypoints/content.ts:153 | The end of the word-character run that starts at the given index, with the same two properties. |
| Words.ClampOffset | src/entrypoints/content.ts:148-149 | `slice` cuts at the offset when it lies inside the text, and at the end of the text otherwise. |
| Words.RunAroundSpan | src/entrypoints/content.ts:147-156 | The text before the offset followed by the text after it is the run of word characters around the offset that cannot be extended either way. |
| Words.WordAtSpan | src/entrypoints/content.ts:147-158 | The extracted word is `text[st..en]` for a maximal run of word characters around the clamped offset. Trimming removes nothing from it. |
| Words.RunAround | src/entrypoints/content.ts:147-156 | The two matched runs put together hold only word characters. |
| Words.WordAt | src/entrypoints/content.ts:147-158 | The word holds only word characters, and it is the run around the clamped offset: the final `trim` removes nothing. |
| Words.TrimKeepsWordChars | src/entrypoints/content.ts:158 | Trimming removes nothing from a string of word characters. |
| Words.WordCharIsNotWhiteSpace | src/entrypoints/content.ts:152-158 | No character of the word class is whitespace. |
| Words.MaximalRunUnique | src/entrypoints/content.ts:147-158 | Only one maximal run lies around a given offset. |
| Words.MaximalRunEmpty | src/entrypoints/content.ts:147-158 | The maximal run is empty exactly when neither neighbour of the offset is a word character. |
| Words.WordAtEmpty | src/entrypoints/content.ts:147-158 | No word is found exactly when neither the character before the caret nor the one at it is a word character. |
| Words.WholeWord | src/entrypoints/content.ts:152-158 | A text made only of word characters is taken whole, wherever the caret is. Hyphenated words stay whole. |
| Background.DetectQuery | src/entrypoints/background.ts:22 | Detection asks for a translation from `auto` to `en` of the text. |
| Background.TranslateQuery | src/entrypoints/background.ts:46 | Translation asks from `auto` to the requested target for the text. |
| Background.JsonBody | src/entrypoints/background.ts:49-54 | A body is read only for a response that arrived with `ok` set and parsed as JSON. |
| Background.ShapeDetection | src/entrypoints/background.ts:34-39 | The reply is an error exactly when `data` is `null` or `undefined`. The language is always truthy. It is `data[2]` when that is truthy, and `auto` otherwise, for an array, an object or any other body alike. |
| Background.ObjectDetection | src/entrypoints/background.ts:34-39 | An object body is read by property name: `{"2": "fr"}` detects `fr`, and `{"0": "fr"}` detects `auto`. |
| Background.FirstElements | src/entrypoints/background.ts:57-58 | `map(item => item[0])` succeeds exactly when no item is `null` or `undefined`, and then gives each item's first element. |
| Background.ShapeTranslation | src/entrypoints/background.ts:57-66 | The reply is a translation or the translation error. It is the error exactly when `data[0]` throws, `data[0]` is not an array, or one of its items is `null` or `undefined`. |
| Background.DetectLanguage | src/entrypoints/background.ts:19-41 | The reply is a language or the detection error. A language comes only from a body that was read, and a body that was read gives what `data[2] || 'auto'` shapes it to. |
| Background.TranslateText | src/entrypoints/background.ts:43-68 | The reply is a translation or the translation error. A translation comes only from a body that was read, and a body that was read gives what the segment join shapes it to. |
| Background.Dispatch | src/entrypoints/background.ts:73-95 | Only `detect` and `translate` are answered. A detection gets a language or the detection error, and a translation gets a translation or the translation error. |
| Background.DispatchConsultsOneQuery | src/entrypoints/background.ts:73-95 | The answer depends only on the endpoint's answer to one query. For detection that is the `auto`→`en` query. For translation it is the requested target, or `en` when none is given. |
| Background.ElementStringsOfStrings | src/entrypoints/background.ts:60 | `join` converts string elements to themselves. |
| Background.Present | src/entrypoints/background.ts:57-59 | The segments that start with a string, in order: no more than there are, and each one present among them. |
| Background.NonEmpty | src/entrypoints/background.ts:59 | The non-empty strings, each one taken from the input, and no more of them than the input has. |
| Background.FilterHeads | src/entrypoints/background.ts:58-59 | When each first element is its segment's string, or a falsy value, `filter(Boolean)` gives exactly the non-empty strings, in order. |
| Background.TranslationJoinsSegments | src/entrypoints/background.ts:57-63 | When each segment starts with a string or with a falsy value such as `null`, the translation is the non-empty strings joined with single spaces. It is "" when there are none. |
| Background.DispatchJoinsSegments | src/entrypoints/background.ts:43-68 | The worker answers a translate message, whose OK body has items starting with the given heads, with the non-empty heads joined by single spaces. |
| Background.TranslationSplitsIntoSegments | src/entrypoints/background.ts:57-60 | Under the same conditions, splitting the translation at spaces gives back exactly the non-empty strings, when they hold no space. |
| LegacyBackground.TranslateText | src/background.ts:7-32 | The older `translateText` answers exactly as the newer one does. |
| LegacyBackground.Dispatch | src/background.ts:37-48 | The older worker answers exactly the `translate` messages, each with a translation or the translation error. |
| LegacyBackground.DispatchIgnoresTarget | src/background.ts:37-48 | Only `translate` is answered. A requested target is ignored: the answer is the newer worker's answer to the same message without a target. |
| LegacyBackground.DispatchAlwaysEnglish | src/background.ts:37-48 | The older worker's answer depends only on the endpoint's `en` translation of the text. |
| ContentSettings.IsRequiredKeyPressed | src/entrypoints/content.ts:49-64 | Outside press mode every event qualifies. In press mode, `ctrl` reads the Control flag, `alt` and `opt` the Alt flag, `cmd` the Meta flag, and any other value accepts every event. |
| ContentSettings.FirstMatch | src/entrypoints/content.ts:68 | `find` gives the first mapping whose source language equals the detected one, or none when no mapping matches. |
| ContentSettings.GetTargetLanguage | src/entrypoints/content.ts:67-70 | The target is the default unless some mapping matches. |
| ContentSettings.TargetOfFirstMatch | src/entrypoints/content.ts:67-70 | The first matching mapping's target wins over later ones. |
| ContentSettings.TargetWithoutMatch | src/entrypoints/content.ts:67-70 | With no matching mapping the default target is used. A detected language that is not a string never matches. |
| ContentSettings.ModifierKeyName | src/entrypoints/content.ts:52-63 | The configured modifier has a key name exactly when it is one of the four recognised values. |
| ContentSettings.ReleaseMissedAsWritten | src/entrypoints/content.ts:381 | In press mode, the release event of the configured modifier never passes the key-up test as written. |
| ContentSettings.ReleaseRecognised | src/entrypoints/content.ts:381 | The corrected test accepts the modifier's release and everything the written test accepts, and nothing else. |
| ContentTranslate.SourceLanguage | src/entrypoints/content.ts:178 | The source language is always truthy. A truthy detected language is used as it is. Unless it is `auto`, it is the language the detection answered. |
| ContentTranslate.Failure | src/entrypoints/content.ts:196-205 | An error reloads exactly when its message includes the invalidated-context text. Otherwise it is re-thrown. |
| ContentTranslate.ReadTranslation | src/entrypoints/content.ts:192-195 | A translation is returned exactly when the answer carries a non-empty one, and it is that text. No answer at all throws the property-read error, and a rejected message goes to the `catch` clause with its own error. |
| ContentTranslate.RequestTranslation | src/entrypoints/content.ts:169-206 | The detect message goes first. The translate message follows unless detection threw, and it carries the target that the mappings choose for the detected language. When the translate message is sent, the outcome is what reading its answer gives: a non-empty translation is returned, an empty one gives `null`, and an error goes to the `catch` clause. A returned translation is non-empty and is what the translate answer carried. |
| ContentTranslate.UndetectedLanguageIsAuto | src/entrypoints/content.ts:178-189 | A missing or failed detection chooses the target for `auto`. |
| ContentTranslate.FalsyTranslationIsNull | src/entrypoints/content.ts:192-195 | An empty translation or an error reply yields `null`. |
| ContentTranslate.OtherErrorsRethrown | src/entrypoints/content.ts:196-205 | Any other error, from either message, is re-thrown unchanged. When it comes from the detect message, nothing more is sent. |
| ContentTranslate.InvalidatedContextReloads | src/entrypoints/content.ts:196-203 | When the detect message fails with the invalidated context, the result is `null` plus a reload, and nothing more is sent. When the translate message fails that way, the result is a reload too. |
| ContentTranslate.DetectedLanguageSelectsTarget | src/entrypoints/content.ts:172-195 | Connected to the background worker: a detected language `lang` sends the translate message for the first mapping's target for `lang`. The result is what the worker's translation for that target gives. |
| ContentTranslate.UnreachableBackendGivesNull | src/entrypoints/content.ts:185-195 | With the endpoint unreachable the result is `null`, and nothing is shown. |
| ContentState.WordAtPoint | src/entrypoints/content.ts:119-167 | The word under the point holds only word characters. It is empty when the point is over no text. |
| ContentState.Extract | src/entrypoints/content.ts:215-233 | The selection is the trimmed one. A non-empty selection is the text, anchored 5 px below the left of its rectangle when it has a range and at the event's point otherwise. Without one, the word under the event's point is the text, anchored at that point. |
| ContentState.WordUnderPoint | src/entrypoints/content.ts:119-167 | Without a selection, the text translated is the maximal run of word characters around the caret's offset, clamped to the text. It is empty when the point is over no text. |
| ContentState.ExtractTrimmed | src/entrypoints/content.ts:215-233 | The text to translate never starts or ends with whitespace. |
| ContentState.Decide | src/entrypoints/content.ts:208-259 | A reuse shows the cached, non-empty result: at the anchor for press mode's unforced shortcut, at the nudged anchor otherwise. A fetch asks for the extracted text, which is not empty. |
| ContentState.Settle | src/entrypoints/content.ts:262-275 | The exchange's messages are appended. The settings, the key state, the pointer and the timeouts are untouched. |
| ContentState.Respond | src/entrypoints/content.ts:235-275 | The rest of handleTranslation touches neither the settings, the key state, the pointer nor the timeouts. It sends at most two messages, appended after the earlier ones. |
| ContentState.HandleTranslation | src/entrypoints/content.ts:208-276 | handleTranslation leaves the settings, the key state, the pointer and the timeouts alone. It sends at most two messages, appended after the earlier ones. |
| ContentState.OnSelectionChange | src/entrypoints/content.ts:278-313 | Only the popup and the selection timeout change, and the popup either stays or is hidden. |
| ContentState.OnMouseMove | src/entrypoints/content.ts:315-338 | The pointer is recorded and the settings kept. In hover mode only the pointer and the hover timeout change. In press mode no timeout changes. |
| ContentState.OnMouseOut | src/entrypoints/content.ts:340-356 | The popup is hidden and both handles are dropped. Nothing is sent, and the settings and the pointer are kept. |
| ContentState.OnKeyDown | src/entrypoints/content.ts:358-374 | Nothing changes outside press mode. The settings, the pointer and the timeouts are kept, and messages are only appended. |
| ContentState.OnKeyUpAsWritten | src/entrypoints/content.ts:376-398 | As written: in press mode, an event that passes the modifier-flag test releases everything. Any other event changes nothing. |
| ContentState.OnKeyUp | src/entrypoints/content.ts:376-398 | Corrected: in press mode, the release of the configured modifier releases everything. Any other event changes nothing. |
| ContentState.OnSettingsChanged | src/entrypoints/content.ts:418-436 | A falsy value changes nothing. New settings are installed, and the key state, the popup, the handles and the cache are cleared. Nothing is sent. |
| ContentState.OnSettingsLoaded | src/entrypoints/content.ts:406-413 | Only the settings and the reload request can change. |
| ContentState.OnTimeout | src/entrypoints/content.ts:296-337 | The fired timeout is removed. The handles, the settings and the pointer are kept, and messages are only appended. What each kind of callback runs is in `HoverTimeoutTranslates` and `SelectionTimeoutTranslates`. |
| ContentState.Step | src/entrypoints/content.ts:400-436 | Every listener only appends messages, and only a move changes the pointer. |
| ContentState.Run | src/entrypoints/content.ts:400-436 | Over any sequence of events the log of messages only grows. |
| ContentState.InitialValid | src/entrypoints/content.ts:22-38 | The initial state satisfies the invariant, in press mode with `alt`. |
| ContentState.ClearPendingEmptiesTimers | src/entrypoints/content.ts:342-349 | Clearing both handles leaves no timeout pending. |
| ContentState.RearmReplaces | src/entrypoints/content.ts:291-296 | Re-arming leaves exactly one timeout of that kind: the new one with its task. The other kind's handle is kept. |
| ContentState.SettlePreservesValid | src/entrypoints/content.ts:262-275 | Caching a fresh translation keeps the cache invariant. |
| ContentState.RespondPreservesValid | src/entrypoints/content.ts:235-275 | The invariant holds after the cache and fetch paths. |
| ContentState.HandleTranslationPreservesValid | src/entrypoints/content.ts:208-276 | handleTranslation keeps the invariant. |
| ContentState.MouseMovePreservesValid | src/entrypoints/content.ts:315-338 | handleMouseMove keeps the invariant. |
| ContentState.SelectionChangePreservesValid | src/entrypoints/content.ts:278-313 | handleSelectionChange keeps the invariant. |
| ContentState.TimeoutPreservesValid | src/entrypoints/content.ts:296-311 | A firing timeout keeps the invariant. |
| ContentState.MouseOutPreservesValid | src/entrypoints/content.ts:340-356 | handleMouseOut keeps the invariant. |
| ContentState.KeyDownPreservesValid | src/entrypoints/content.ts:358-374 | handleKeyDown keeps the invariant. |
| ContentState.KeyUpPreservesValid | src/entrypoints/content.ts:376-398 | handleKeyUp, as corrected, keeps the invariant. |
| ContentState.KeyUpAsWrittenPreservesValid | src/entrypoints/content.ts:376-398 | handleKeyUp, as written, keeps the invariant. |
| ContentState.SettingsChangedPreservesValid | src/entrypoints/content.ts:418-436 | The settings-watch callback keeps the invariant. |
| ContentState.StepPreservesValid | src/entrypoints/content.ts:400-436 | Every listener keeps the invariant. |
| ContentState.RunPreservesValid | src/entrypoints/content.ts:400-436 | Any sequence of events keeps the invariant: at most one timeout of each kind, and the cached text and result set together and non-empty. |
| ContentState.DecisionCases | src/entrypoints/content.ts:208-259 | handleTranslation does nothing exactly when press mode has the key up or there is no text. It reuses a result exactly when the press-mode shortcut or the cache applies. Otherwise it fetches the text. |
| ContentState.Suppressed | src/entrypoints/content.ts:210-239 | With the key up in press mode, or with no text, only the popup changes: it is hidden. |
| ContentState.RespondReuses | src/entrypoints/content.ts:243-259 | A request served from the cache only shows the cached translation 15 right and 10 up of the decided point. |
| ContentState.RespondFetches | src/entrypoints/content.ts:261-275 | A request not served from the cache settles the exchange for its text. |
| ContentState.PressModeShowsLastResult | src/entrypoints/content.ts:243-247 | In press mode with the key held, an unforced request shows the last result at the anchor for any text, and sends nothing. |
| ContentState.PressModeReuses | src/entrypoints/content.ts:243-247 | The same, for any extracted text and anchor. |
| ContentState.CacheHitSendsNothing | src/entrypoints/content.ts:250-259 | Cached text sends no message, even when forced. Only the popup changes, and it shows the cached result or is hidden. |
| ContentState.CachedTextSendsNothing | src/entrypoints/content.ts:250-259 | The same, for any extracted text and anchor. |
| ContentState.FetchRecordsExchange | src/entrypoints/content.ts:261-275 | A fetch appends its messages. A translation is cached with its text and anchor and shown. No translation leaves the cache and the popup alone. A reload is requested exactly when the context was invalidated. |
| ContentState.PopupPosition | src/entrypoints/content.ts:217-274 | A newly shown popup sits 30 right and 20 up of the pointer for a word, or 15 and 10 for press mode's shortcut. For a selection with a range it sits 15 right of the rectangle's left and 5 up of its bottom. Without a range it sits 15 right and 10 up of the pointer. |
| ContentState.ShownFrom | src/entrypoints/content.ts:91-92 | The popup sits 15 right and 10 up of the point that showPopup was given. |
| ContentState.SameTextTranslatedOnce | src/entrypoints/content.ts:250-266 | Once a text's translation is cached, asking for the same text again sends nothing. |
| ContentState.HoverDebounce | src/entrypoints/content.ts:331-337 | In hover mode, a run of moves leaves exactly one hover timeout, armed with the last point. The state is the old one with only the pointer, the timeouts, the hover handle and the next handle changed. |
| ContentState.HoverFiresAtLastPoint | src/entrypoints/content.ts:335-337 | When that timeout fires, a forced translation runs at the last point. |
| ContentState.HoverTimeoutTranslates | src/entrypoints/content.ts:332-337 | A pending hover timeout, when it fires, runs a forced translation at its point. |
| ContentState.SelectionTimeoutTranslates | src/entrypoints/content.ts:298-310 | A pending selection timeout, when it fires, runs an unforced translation at the left and bottom of the selection's rectangle. Without a range it only drops the timeout. |
| ContentState.SelectionDebounce | src/entrypoints/content.ts:278-296 | Press mode ignores selection changes. An empty selection hides the popup. Otherwise exactly one selection timeout is pending, with the configured delay. |
| ContentState.PressModeMove | src/entrypoints/content.ts:315-329 | In press mode, a move with the key held translates unforced at the pointer. A move with the key up hides the popup. |
| ContentState.KeyUpMovesOnlyHide | src/entrypoints/content.ts:315-329 | In press mode with the key up, a run of moves only records the pointer and hides the popup. |
| ContentState.CrossingElementEndsPress | src/entrypoints/content.ts:404 | Because `mouseout` is heard on the document, moving into another element ends press mode's translating. Later moves send nothing and show nothing until the key goes down again. |
| ContentState.KeyDownTranslates | src/entrypoints/content.ts:358-374 | Key events do nothing outside press mode. The required key forces a translation at the last pointer position. |
| ContentState.MouseOutClears | src/entrypoints/content.ts:340-356 | The pointer leaving any element gives exactly the old state with the popup hidden and both timeouts and handles cleared. Press mode also drops the key state and the cache. The invariant is kept. |
| ContentState.KeyUpClears | src/entrypoints/content.ts:376-398 | Releasing the key in press mode drops the key state, the popup, the timeouts and the cache. |
| ContentState.SettingsChangeResets | src/entrypoints/content.ts:418-436 | New settings reset the key state, the popup, the timeouts and the cache. A falsy value changes nothing. |
| ContentState.SettingsLoadKeepsState | src/entrypoints/content.ts:41-46 | Loading replaces the settings and resets nothing. A failed read reloads only for the invalidated context. |
| ContentState.PressAgainFetches | src/entrypoints/content.ts:358-398 | After a release, pressing again asks the background afresh, starting with detection of the text under the pointer. |
| ContentState.ModifierReleaseMissed | src/entrypoints/content.ts:376-398 | As written, releasing the modifier changes nothing, and the next move keeps translating. Corrected, the release clears the state and the next move hides the popup. |
| ContentState.AltReleaseExample | src/entrypoints/content.ts:381 | With the default settings, the release of Alt fails the written test and passes the corrected one. |
| ContentScript.Controller.constructor | src/entrypoints/content.ts:22-38 | The script starts in the initial state, which satisfies the invariant. |
| ContentScript.Controller.ShowPopup | src/entrypoints/content.ts:79-102 | The popup shows the text 15 right and 10 up of the given point. |
| ContentScript.Controller.HidePopup | src/entrypoints/content.ts:104-110 | The popup is removed. |
| ContentScript.Controller.SetTimeout | src/entrypoints/content.ts:296-312 | A new handle is taken, and its timeout is added with the configured delay. |
| ContentScript.Controller.ClearTimeout | src/entrypoints/content.ts:291-293 | The handle's timeout, if any, is removed. |
| ContentScript.Controller.TranslateText | src/entrypoints/content.ts:169-206 | The messages are recorded and the outcome is that of translateText. A reload is recorded for the invalidated context. |
| ContentScript.Controller.ExtractText | src/entrypoints/content.ts:215-233 | Computes the text and its anchor: the trimmed selection (5 below its rectangle), or the word under the point. |
| ContentScript.Controller.Respond | src/entrypoints/content.ts:235-275 | Leaves the state that the rest of handleTranslation gives. |
| ContentScript.Controller.FetchAndShow | src/entrypoints/content.ts:261-275 | Leaves the state after awaiting translateText and showing its result. |
| ContentScript.Controller.Remember | src/entrypoints/content.ts:263-274 | Caches the translation with its text and anchor, and shows it. |
| ContentScript.Controller.HandleTranslation | src/entrypoints/content.ts:208-276 | Leaves the state that handleTranslation gives. |
| ContentScript.Controller.SelectionChange | src/entrypoints/content.ts:278-313 | handleSelectionChange, keeping the invariant. |
| ContentScript.Controller.MouseMove | src/entrypoints/content.ts:315-338 | handleMouseMove, keeping the invariant. |
| ContentScript.Controller.Rearm | src/entrypoints/content.ts:332-337 | Replaces the pending timeout of one kind by a new one. |
| ContentScript.Controller.ClearPending | src/entrypoints/content.ts:341-349 | Hides the popup and clears both timeouts and their handles. |
| ContentScript.Controller.MouseOut | src/entrypoints/content.ts:340-356 | handleMouseOut, keeping the invariant. |
| ContentScript.Controller.KeyDown | src/entrypoints/content.ts:358-374 | handleKeyDown, keeping the invariant. |
| ContentScript.Controller.KeyUp | src/entrypoints/content.ts:376-398 | handleKeyUp with the modifier's release recognised, keeping the invariant. |
| ContentScript.Controller.SettingsChanged | src/entrypoints/content.ts:418-436 | The settings-watch callback, keeping the invariant. |
| ContentScript.Controller.SettingsLoaded | src/entrypoints/content.ts:41-46 | loadSettings and its failure handler, keeping the invariant. |
| ContentScript.Controller.TimeoutFired | src/entrypoints/content.ts:296-311 | A pending timeout's callback, keeping the invariant. |

## Left out

- The DOM and Svelte are not modelled. The popup element, `mount` and `innerHTML` become the `Display` value. `elementFromPoint`, `caretRangeFromPoint` and `getSelection` become the `Page` parameter of each handler.
- The tree walker in `getWordAtPoint` collects text nodes that are never used, so it is not modelled.
- There is no clock. A timeout records its delay, and it fires only when the `TimeoutFired` event names it.
- Async interleaving is not modelled. Each handler runs to completion, including its awaits, before the next event. Events that arrive while a request is in flight are not modelled.
- `fetch`, URL encoding and JSON parsing are not modelled. The endpoint is a function from the query's parameters to the response.
- The runtime messaging is a function from the message to its delivery.
- Logging to the console is not modelled.
- The `cleanup` function, listener registration and the failure to register the storage watcher (`content.ts:437-442`) are not modelled.
- The page reload itself is not modelled. The model records only that one was requested.
- The `.catch` handlers in the worker's listener are not modelled. `detectLanguage` and `translateText` catch every error themselves, so those handlers never run.
- `Words.WordAt`, `ContentState.WordAtPoint` and `JsValues.Index` count in code points. JavaScript's `startOffset`, `slice` and string indexing count UTF-16 code units. For text with characters outside the Basic Multilingual Plane, the offset and the indexed character therefore differ from the code's.
- `Words.IsLetterOrNumber`: letters and numbers are classified only up to U+00FF. The Unicode properties `\p{L}` and `\p{N}` above that block are not modelled.
- Pointer coordinates and JSON numbers are integers. Floating point is not modelled.
- `JsValues.ToString` writes objects as `[object Object]`. Number formatting of non-integers is not modelled.
- An error that handleTranslation re-throws rejects its promise, which nobody handles. The model records the messages sent and changes nothing else.
- A timeout that has fired keeps its stale handle in its variable, as in the code.
- `ContentState.SettingsLoadKeepsState`: loading settings resets nothing. The model follows the code here, unlike the settings-watch callback.
- `ContentScript.Controller.KeyUp` models the corrected key-up test. The written test is `ContentState.OnKeyUpAsWritten` (see Findings).
- `ContentState.Step` dispatches a key-up to the corrected `ContentState.OnKeyUp`, not to the handleKeyUp the listeners register as written. The written handler is `ContentState.OnKeyUpAsWritten` (see Findings).
- `ContentState.Run` runs events through `ContentState.Step`, so it too runs the corrected key-up.
- `ContentState.StepPreservesValid` is proved for the machine with the corrected key-up. The written handler keeps the invariant on its own (`ContentState.KeyUpAsWrittenPreservesValid`).
- `ContentState.RunPreservesValid` is proved for the machine with the corrected key-up, through `ContentState.StepPreservesValid`.

## Findings

| source | as written | input that shows it | evidently intended | confidence | as-written member | corrected member |
|---|---|---|---|---|---|---|
| src/entrypoints/content.ts:381 | handleKeyUp clears the key state only when the release event itself still carries the configured modifier's flag | default settings (press mode, `alt`), key held, then the keyup event with key `Alt` and `altKey` false, as browsers report the release of Alt | releasing the configured modifier ends press-to-translate: it clears the key state, the popup, the timeouts and the cache | high, not executed | ContentState.OnKeyUpAsWritten, shown by ContentState.ModifierReleaseMissed, ContentSettings.ReleaseMissedAsWritten and ContentState.AltReleaseExample | ContentState.OnKeyUp with ContentSettings.ReleasesRequiredKey, proved in ContentState.KeyUpClears and ContentScript.Controller.KeyUp |
