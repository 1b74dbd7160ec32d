/**
 * The content script of `src/entrypoints/content.ts` as it runs: the variables `main()` closes
 * over become the fields of a `Controller`, and each listener a method that updates them step by
 * step. Every method is proved to leave the state the matching `ContentState` function gives, and
 * to keep `ContentState.Valid`. The popup on screen, the page's timeout table, the messages sent
 * and the reload request are fields too: they are the effects the handlers have on the page.
 */
module ContentScript {
  import opened Wrappers
  import opened JsValues
  import opened Messages
  import opened ContentSettings
  import opened ContentTranslate
  import opened ContentState

  class Controller {
    var settings: Settings
    var isKeyPressed: bool
    var lastMouseX: int
    var lastMouseY: int
    var hoverTimer: Option<TimerId>
    var selectionTimer: Option<TimerId>
    var lastTranslatedText: Option<string>
    var lastTranslatedResult: Option<string>
    var lastTranslationPosition: Point

    // The page's side: pending timeouts, the popup, the runtime messages sent, a reload request.
    var timers: map<TimerId, Timeout>
    var nextTimerId: TimerId
    var display: Display
    var sent: seq<Message>
    var reloadRequested: bool

    function Snapshot(): ContentState.State
      reads this
    {
      ContentState.State(settings, isKeyPressed, Point(lastMouseX, lastMouseY), hoverTimer, selectionTimer,
        timers, nextTimerId, lastTranslatedText, lastTranslatedResult, lastTranslationPosition,
        display, sent, reloadRequested)
    }

    ghost predicate Valid()
      reads this
    {
      ContentState.Valid(Snapshot())
    }

    /** The script as it starts, before the stored settings arrive. */
    constructor()
      ensures Snapshot() == Initial && Valid()
    {
      settings := DefaultSettings;
      isKeyPressed := false;
      lastMouseX, lastMouseY := 0, 0;
      hoverTimer, selectionTimer := None, None;
      lastTranslatedText, lastTranslatedResult := None, None;
      lastTranslationPosition := Point(0, 0);
      timers, nextTimerId := map[], 1;
      display := Hidden;
      sent := [];
      reloadRequested := false;
      InitialValid();
    }

    /** `showPopup(text, x, y)`. */
    method ShowPopup(text: string, x: int, y: int)
      modifies this`display
      ensures display == Shown(text, x + 15, y - 10)
    {
      display := Shown(text, x + 15, y - 10);
    }

    method HidePopup()
      modifies this`display
      ensures display == Hidden
    {
      display := Hidden;
    }

    /** `window.setTimeout(callback, settings.translationDelay)`. */
    method SetTimeout(task: Task) returns (id: TimerId)
      modifies this`timers, this`nextTimerId
      ensures id == old(nextTimerId) && nextTimerId == id + 1
      ensures timers == old(timers)[id := Timeout(task, settings.translationDelay)]
    {
      id := nextTimerId;
      timers := timers[id := Timeout(task, settings.translationDelay)];
      nextTimerId := nextTimerId + 1;
    }

    /** `if (timer) window.clearTimeout(timer)`. */
    method ClearTimeout(handle: Option<TimerId>)
      modifies this`timers
      ensures timers == ContentState.ClearTimeout(old(timers), handle)
    {
      if handle.Some? {
        timers := timers - {handle.value};
      }
    }

    /** `translateText(text)`: the two messages, the reading of the answer, and the reload the
        invalidated-context error asks for. */
    method TranslateText(text: string, send: Channel) returns (outcome: Outcome)
      modifies this`sent, this`reloadRequested
      ensures outcome == RequestTranslation(settings, send, text).outcome
      ensures sent == old(sent) + RequestTranslation(settings, send, text).sent
      ensures reloadRequested == (old(reloadRequested) || outcome.Reloading?)
    {
      var detect := DetectMessage(text);
      sent := sent + [detect];
      var detected := send(detect);
      if detected.Thrown? {
        outcome := Failure(detected.message);
      } else {
        var sourceLang := SourceLanguage(detected);
        var targetLang := GetTargetLanguage(settings, sourceLang);
        var request := TranslateMessage(text, targetLang);
        sent := sent + [request];
        outcome := ReadTranslation(send(request));
        assert sent == old(sent) + [detect, request];
      }
      if outcome.Reloading? {
        reloadRequested := true;
      }
    }

    /** The text `handleTranslation` works on: the trimmed selection, else the word under the
        point; and where the popup is placed from. */
    method ExtractText(x: int, y: int, page: Page) returns (selectedText: string, text: string, popupX: int, popupY: int)
      ensures Extraction(selectedText, text, Point(popupX, popupY)) == Extract(page, Point(x, y))
    {
      selectedText := Trim(page.selection);
      text := selectedText;
      popupX, popupY := x, y;
      if text == "" {
        text := WordAtPoint(page, Point(x, y));
      } else if page.selectionRect.Some? {
        popupX, popupY := page.selectionRect.value.left, page.selectionRect.value.bottom + 5;
      }
    }

    /** The rest of `handleTranslation`, with the key state already checked. */
    method Respond(selectedText: string, text: string, popupX: int, popupY: int, forced: bool, send: Channel)
      requires !(settings.pressToTranslate && !isKeyPressed)
      modifies this`sent, this`reloadRequested, this`display
      modifies this`lastTranslatedText, this`lastTranslatedResult, this`lastTranslationPosition
      ensures Snapshot() == ContentState.Respond(old(Snapshot()), Extraction(selectedText, text, Point(popupX, popupY)), forced, send)
    {
      ghost var s := Snapshot();
      ghost var e := Extraction(selectedText, text, Point(popupX, popupY));
      var x, y := popupX, popupY;
      if text == "" {
        assert Decide(s, forced, e) == Suppress;
        HidePopup();
        return;
      }
      if settings.pressToTranslate && lastTranslatedResult.Some? && lastTranslatedResult.value != "" && !forced {
        assert Decide(s, forced, e) == Reuse(lastTranslatedResult.value, e.anchor);
        ShowPopup(lastTranslatedResult.value, x, y);
        return;
      }
      if lastTranslatedText == Some(text) && lastTranslatedResult.Some? && lastTranslatedResult.value != "" {
        assert Decide(s, forced, e) == Reuse(lastTranslatedResult.value, Nudge(e));
        if selectedText == "" {
          x, y := x + 15, y - 10;
        }
        ShowPopup(lastTranslatedResult.value, x, y);
        return;
      }
      assert Decide(s, forced, e) == Fetch(text);
      FetchAndShow(selectedText, text, x, y, send);
    }

    /** `await translateText(text)` and, for a translation, caching and showing it. */
    method FetchAndShow(selectedText: string, text: string, popupX: int, popupY: int, send: Channel)
      modifies this`sent, this`reloadRequested, this`display
      modifies this`lastTranslatedText, this`lastTranslatedResult, this`lastTranslationPosition
      ensures Snapshot() == Settle(old(Snapshot()), Extraction(selectedText, text, Point(popupX, popupY)),
                                   RequestTranslation(old(settings), send, text))
    {
      ghost var exchange := RequestTranslation(settings, send, text);
      ghost var s1 := Snapshot().(sent := sent + exchange.sent);
      var outcome := TranslateText(text, send);
      if outcome.Translated? {
        assert Snapshot() == s1;
        Remember(selectedText, text, popupX, popupY, outcome.translation);
      }
    }

    /** The success branch of `handleTranslation`: cache the translation, then show it. */
    method Remember(selectedText: string, text: string, popupX: int, popupY: int, translation: string)
      modifies this`display, this`lastTranslatedText, this`lastTranslatedResult, this`lastTranslationPosition
      ensures Snapshot() == ContentState.Remember(old(Snapshot()), Extraction(selectedText, text, Point(popupX, popupY)), translation)
    {
      var x, y := popupX, popupY;
      lastTranslatedText := Some(text);
      lastTranslatedResult := Some(translation);
      lastTranslationPosition := Point(x, y);
      if selectedText == "" {
        x, y := x + 15, y - 10;
      }
      ShowPopup(translation, x, y);
    }

    /** `handleTranslation(e, forceNewTranslation)` for an event at (`x`, `y`). */
    method HandleTranslation(x: int, y: int, forced: bool, page: Page, send: Channel)
      modifies this`sent, this`reloadRequested, this`display
      modifies this`lastTranslatedText, this`lastTranslatedResult, this`lastTranslationPosition
      ensures Snapshot() == ContentState.HandleTranslation(old(Snapshot()), Point(x, y), forced, page, send)
    {
      if settings.pressToTranslate && !isKeyPressed {
        HidePopup();
        return;
      }
      var selectedText, text, popupX, popupY := ExtractText(x, y, page);
      Respond(selectedText, text, popupX, popupY, forced, send);
    }

    /** `handleSelectionChange()`. */
    method SelectionChange(page: Page)
      requires Valid()
      modifies this
      ensures Valid()
      ensures Snapshot() == OnSelectionChange(old(Snapshot()), page)
    {
      SelectionChangePreservesValid(Snapshot(), page);
      ghost var s := Snapshot();
      if settings.pressToTranslate {
        return;
      }
      var selectedText := Trim(page.selection);
      if selectedText == "" {
        HidePopup();
        assert Snapshot() == s.(display := Hidden);
        return;
      }
      Rearm(SelectionTask);
    }

    /** `handleMouseMove(e)`. */
    method MouseMove(x: int, y: int, page: Page, send: Channel)
      requires Valid()
      modifies this
      ensures Valid()
      ensures Snapshot() == OnMouseMove(old(Snapshot()), Point(x, y), page, send)
    {
      MouseMovePreservesValid(Snapshot(), Point(x, y), page, send);
      ghost var moved := Snapshot().(lastMouse := Point(x, y));
      lastMouseX, lastMouseY := x, y;
      assert Snapshot() == moved;
      if settings.pressToTranslate {
        if isKeyPressed {
          HandleTranslation(x, y, false, page, send);
        } else {
          HidePopup();
          assert Snapshot() == moved.(display := Hidden);
        }
        return;
      }
      Rearm(HoverTask(Point(x, y)));
    }

    /** `if (timer) clearTimeout(timer); timer = setTimeout(...)` on the variable of the task's kind. */
    method Rearm(task: Task)
      modifies this`timers, this`nextTimerId, this`hoverTimer, this`selectionTimer
      ensures Snapshot() == ContentState.Rearm(old(Snapshot()), task)
    {
      if task.HoverTask? {
        ClearTimeout(hoverTimer);
        var id := SetTimeout(task);
        hoverTimer := Some(id);
      } else {
        ClearTimeout(selectionTimer);
        var id := SetTimeout(task);
        selectionTimer := Some(id);
      }
    }

    /** Hide the popup and clear both timeouts. */
    method ClearPending()
      modifies this`display, this`timers, this`hoverTimer, this`selectionTimer
      ensures Snapshot() == ContentState.ClearPending(old(Snapshot()))
    {
      HidePopup();
      ClearTimeout(hoverTimer);
      hoverTimer := None;
      ClearTimeout(selectionTimer);
      selectionTimer := None;
    }

    /** `handleMouseOut()`. */
    method MouseOut()
      requires Valid()
      modifies this
      ensures Valid()
      ensures Snapshot() == OnMouseOut(old(Snapshot()))
    {
      ClearPendingEmptiesTimers(Snapshot());
      ClearPending();
      if settings.pressToTranslate {
        isKeyPressed := false;
        lastTranslatedText := None;
        lastTranslatedResult := None;
      }
    }

    /** `handleKeyDown(e)`. */
    method KeyDown(e: KeyEvent, page: Page, send: Channel)
      requires Valid()
      modifies this
      ensures Valid()
      ensures Snapshot() == OnKeyDown(old(Snapshot()), e, page, send)
    {
      ghost var s := Snapshot();
      if !settings.pressToTranslate {
        return;
      }
      if IsRequiredKeyPressed(settings, e) {
        HandleTranslationPreservesValid(s.(isKeyPressed := true), s.lastMouse, true, page, send);
        isKeyPressed := true;
        assert Snapshot() == s.(isKeyPressed := true);
        HandleTranslation(lastMouseX, lastMouseY, true, page, send);
      }
    }

    /** `handleKeyUp(e)`, recognising the release of the configured modifier. */
    method KeyUp(e: KeyEvent)
      requires Valid()
      modifies this
      ensures Valid()
      ensures Snapshot() == OnKeyUp(old(Snapshot()), e)
    {
      ClearPendingEmptiesTimers(Snapshot());
      if !settings.pressToTranslate {
        return;
      }
      if ReleasesRequiredKey(settings, e) {
        isKeyPressed := false;
        ClearPending();
        lastTranslatedText := None;
        lastTranslatedResult := None;
      }
    }

    /** The `storage.watch` callback. */
    method SettingsChanged(newSettings: Option<Settings>)
      requires Valid()
      modifies this
      ensures Valid()
      ensures Snapshot() == OnSettingsChanged(old(Snapshot()), newSettings)
    {
      if newSettings.Some? { ClearPendingEmptiesTimers(Snapshot().(settings := newSettings.value)); }
      if newSettings.Some? {
        settings := newSettings.value;
        isKeyPressed := false;
        ClearPending();
        lastTranslatedText := None;
        lastTranslatedResult := None;
      }
    }

    /** `loadSettings()` and the `catch` attached to it. */
    method SettingsLoaded(read: StorageRead)
      requires Valid()
      modifies this
      ensures Valid()
      ensures Snapshot() == OnSettingsLoaded(old(Snapshot()), read)
    {
      match read {
        case Stored(result) =>
          if result.Some? {
            settings := result.value;
          }
        case ReadFailed(message) =>
          if Contains(message, ContextInvalidated) {
            reloadRequested := true;
          }
      }
    }

    /** The pending timeout `id` fires and runs its callback. */
    method TimeoutFired(id: TimerId, page: Page, send: Channel)
      requires Valid() && id in timers
      modifies this
      ensures Valid()
      ensures Snapshot() == OnTimeout(old(Snapshot()), id, page, send)
    {
      TimeoutPreservesValid(Snapshot(), id, page, send);
      var task := timers[id].task;
      timers := timers - {id};
      match task {
        case HoverTask(event) =>
          HandleTranslation(event.x, event.y, true, page, send);
        case SelectionTask =>
          if page.selectionRect.Some? {
            var rect := page.selectionRect.value;
            HandleTranslation(rect.left, rect.bottom, false, page, send);
          }
      }
    }
  }
}
