/**
 * The content script of `src/entrypoints/content.ts` as a state machine: the variables its
 * `main()` closes over, the page's pending timeouts and the popup on screen, and one function
 * per event handler giving the state after the handler has run to completion.
 * The page (selection, its rectangle, the text under a point) and the runtime messaging are
 * parameters of the handlers that read them.
 */
module ContentState {
  import opened Wrappers
  import opened JsValues
  import opened Messages
  import opened Words
  import opened ContentSettings
  import opened ContentTranslate

  /** `window.setTimeout` handles are positive integers, so a stored handle is always truthy. */
  type TimerId = nat

  datatype Point = Point(x: int, y: int)

  /** The two fields of `getBoundingClientRect()` the script reads. */
  datatype Rect = Rect(left: int, bottom: int)

  /** The text node under a point and the caret offset in it. */
  datatype Hit = Hit(text: string, offset: nat)

  /**
   * What the page shows when a handler runs: `selection.toString()`, the first range's rectangle
   * (`None` when the selection has no range), and what `elementFromPoint`/`caretRangeFromPoint`
   * find at a point (`None` when either finds nothing or the caret is not in a text node).
   */
  datatype Page = Page(selection: string, selectionRect: Option<Rect>, caretAt: (int, int) -> Option<Hit>)

  /** The popup: absent, or mounted with its text at its (already offset) position. */
  datatype Display = Hidden | Shown(text: string, x: int, y: int)

  /** The callback of a pending timeout: the hover one keeps the event it was armed with. */
  datatype Task = HoverTask(event: Point) | SelectionTask

  datatype Timeout = Timeout(task: Task, delay: int)

  datatype State = State(
    settings: Settings,
    isKeyPressed: bool,
    lastMouse: Point,
    hoverTimer: Option<TimerId>,
    selectionTimer: Option<TimerId>,
    timers: map<TimerId, Timeout>,   // the page's pending timeouts
    nextTimerId: TimerId,            // the handle the next `setTimeout` returns
    lastTranslatedText: Option<string>,
    lastTranslatedResult: Option<string>,
    lastTranslationPosition: Point,
    display: Display,
    sent: seq<Message>,              // every runtime message sent so far
    reloadRequested: bool)           // `window.location.reload()` was called

  const Initial := State(DefaultSettings, false, Point(0, 0), None, None, map[], 1, None, None, Point(0, 0), Hidden, [], false)

  /**
   * Every pending timeout has a handle below the next one and is the one its kind's variable
   * holds, so at most one of each kind is pending.
   */
  ghost predicate TimersValid(timers: map<TimerId, Timeout>, hoverTimer: Option<TimerId>, selectionTimer: Option<TimerId>, nextTimerId: TimerId) {
    && nextTimerId > 0
    && (forall id :: id in timers ==> 0 < id < nextTimerId)
    && (forall id :: id in timers && timers[id].task.HoverTask? ==> hoverTimer == Some(id))
    && (forall id :: id in timers && timers[id].task.SelectionTask? ==> selectionTimer == Some(id))
    && (hoverTimer.Some? ==> 0 < hoverTimer.value < nextTimerId)
    && (selectionTimer.Some? ==> 0 < selectionTimer.value < nextTimerId)
  }

  /** The cached text and result are set and cleared together, and neither is empty. */
  predicate CacheValid(text: Option<string>, result: Option<string>) {
    && (text.Some? <==> result.Some?)
    && (text.Some? ==> text.value != "")
    && (result.Some? ==> result.value != "")
  }

  ghost predicate Valid(s: State) {
    && TimersValid(s.timers, s.hoverTimer, s.selectionTimer, s.nextTimerId)
    && CacheValid(s.lastTranslatedText, s.lastTranslatedResult)
  }

  // ---------------------------------------------------------------------------------------------
  // Popup and timeouts

  /** `showPopup(text, x, y)`: the popup goes 15 px right of and 10 px above the given point. */
  function ShowPopup(s: State, text: string, at: Point): State {
    s.(display := Shown(text, at.x + 15, at.y - 10))
  }

  function HidePopup(s: State): State {
    s.(display := Hidden)
  }

  /** `if (timer) window.clearTimeout(timer)`. */
  function ClearTimeout(timers: map<TimerId, Timeout>, handle: Option<TimerId>): map<TimerId, Timeout> {
    if handle.Some? then timers - {handle.value} else timers
  }

  /** `if (timer) clearTimeout(timer); timer = setTimeout(task, settings.translationDelay)` for
      the variable of the task's kind. */
  function Rearm(s: State, task: Task): State {
    var id := s.nextTimerId;
    var handle := if task.HoverTask? then s.hoverTimer else s.selectionTimer;
    var s1 := s.(timers := ClearTimeout(s.timers, handle)[id := Timeout(task, s.settings.translationDelay)],
                 nextTimerId := id + 1);
    if task.HoverTask? then s1.(hoverTimer := Some(id)) else s1.(selectionTimer := Some(id))
  }

  /** Hide the popup and clear both timeouts and their variables. */
  function ClearPending(s: State): State {
    s.(display := Hidden,
       timers := ClearTimeout(ClearTimeout(s.timers, s.hoverTimer), s.selectionTimer),
       hoverTimer := None,
       selectionTimer := None)
  }

  /** `ClearPending`, and also drop the key state and the translation cache. */
  function Release(s: State): State {
    ClearPending(s).(isKeyPressed := false, lastTranslatedText := None, lastTranslatedResult := None)
  }

  // ---------------------------------------------------------------------------------------------
  // handleTranslation

  /** `getWordAtPoint(x, y)`: a run of word characters, or "" when nothing is under the point. */
  function WordAtPoint(page: Page, at: Point): (w: string)
    ensures forall i :: 0 <= i < |w| ==> IsWordChar(w[i])
    ensures page.caretAt(at.x, at.y).None? ==> w == ""
  {
    match page.caretAt(at.x, at.y)
    case None => ""
    case Some(hit) => WordAt(hit.text, hit.offset)
  }

  /** The trimmed selection, the text to translate, and the point the popup is placed from. */
  datatype Extraction = Extraction(selected: string, text: string, anchor: Point)

  /** The first half of `handleTranslation`: the selection if there is one (anchored 5 px below
      its rectangle when it has a range), else the word under the event's point. The text never
      starts or ends with white space, and a selection wins over the word under the point. */
  function Extract(page: Page, at: Point): (e: Extraction)
    ensures e.selected == Trim(page.selection)
    ensures e.selected != "" ==> e.text == e.selected
    ensures e.selected == "" ==> e.anchor == at && e.text == WordAtPoint(page, at)
    ensures e.selected != "" ==>
      e.anchor == (if page.selectionRect.Some? then Point(page.selectionRect.value.left, page.selectionRect.value.bottom + 5) else at)
  {
    var selected := Trim(page.selection);
    if selected == "" then Extraction(selected, WordAtPoint(page, at), at)
    else match page.selectionRect
      case Some(rect) => Extraction(selected, selected, Point(rect.left, rect.bottom + 5))
      case None => Extraction(selected, selected, at)
  }

  /** The text a handler translates never starts or ends with white space: a selection is
      trimmed, and the word under the pointer is made of word characters only. */
  lemma ExtractTrimmed(page: Page, at: Point)
    ensures var e := Extract(page, at); Trim(e.text) == e.text
  {
    var selected := Trim(page.selection);
    TrimUnchanged(selected);
    if selected == "" {
      TrimKeepsWordChars(WordAtPoint(page, at));
    }
  }

  /** Without a selection, the text is the maximal run of word characters around the caret's
      offset (clamped to the text), and nothing when the point is over no text. */
  lemma WordUnderPoint(page: Page, at: Point, st: nat, en: nat)
    requires Trim(page.selection) == ""
    ensures page.caretAt(at.x, at.y).None? ==> Extract(page, at).text == ""
    ensures var hit := page.caretAt(at.x, at.y);
      hit.Some? && MaximalRun(hit.value.text, ClampOffset(hit.value.text, hit.value.offset), st, en) ==>
        Extract(page, at).text == hit.value.text[st..en]
  {
    var hit := page.caretAt(at.x, at.y);
    if hit.Some? && MaximalRun(hit.value.text, ClampOffset(hit.value.text, hit.value.offset), st, en) {
      var st', en' := WordAtSpan(hit.value.text, hit.value.offset);
      MaximalRunUnique(hit.value.text, ClampOffset(hit.value.text, hit.value.offset), st, en, st', en');
    }
  }

  /** Where the cache-hit and fresh paths show the popup from: 15 px right of and 10 px above the
      anchor when the text is the word under the pointer, the anchor itself for a selection. */
  function Nudge(e: Extraction): Point {
    if e.selected == "" then Point(e.anchor.x + 15, e.anchor.y - 10) else e.anchor
  }

  /** `lastTranslatedResult` is truthy. */
  predicate HasResult(s: State) {
    s.lastTranslatedResult.Some? && s.lastTranslatedResult.value != ""
  }

  datatype Decision = Suppress | Reuse(translation: string, at: Point) | Fetch(text: string)

  /** The guards of `handleTranslation`, in the order the code tests them. A reuse shows the
      cached, non-empty result, from the anchor itself when press mode re-shows it unforced and
      from the nudged anchor otherwise; a fetch asks for the extracted text, which is not empty. */
  function Decide(s: State, forced: bool, e: Extraction): (d: Decision)
    ensures d.Reuse? ==> HasResult(s) && d.translation == s.lastTranslatedResult.value
    ensures d.Reuse? ==> d.at == (if s.settings.pressToTranslate && !forced then e.anchor else Nudge(e))
    ensures d.Fetch? ==> d.text == e.text && e.text != ""
  {
    if s.settings.pressToTranslate && !s.isKeyPressed then Suppress
    else if e.text == "" then Suppress
    else if s.settings.pressToTranslate && HasResult(s) && !forced then Reuse(s.lastTranslatedResult.value, e.anchor)
    else if s.lastTranslatedText == Some(e.text) && HasResult(s) then Reuse(s.lastTranslatedResult.value, Nudge(e))
    else Fetch(e.text)
  }

  /** Cache a fresh translation with its text and anchor, and show it. */
  function Remember(s: State, e: Extraction, translation: string): State {
    var cached := s.(lastTranslatedText := Some(e.text),
                     lastTranslatedResult := Some(translation),
                     lastTranslationPosition := e.anchor);
    ShowPopup(cached, translation, Nudge(e))
  }

  /** After `await translateText(text)`: record the messages sent; a translation is cached with
      the anchor and shown; `null` changes nothing else; a reload is requested; an error rejects
      the handler's promise and changes nothing else. */
  function Settle(s: State, e: Extraction, x: Exchange): (r: State)
    ensures r.sent == s.sent + x.sent
    ensures r.settings == s.settings && r.isKeyPressed == s.isKeyPressed && r.lastMouse == s.lastMouse
    ensures r.hoverTimer == s.hoverTimer && r.selectionTimer == s.selectionTimer
    ensures r.timers == s.timers && r.nextTimerId == s.nextTimerId
  {
    var s1 := s.(sent := s.sent + x.sent);
    match x.outcome
    case Translated(translation) => Remember(s1, e, translation)
    case NoTranslation => s1
    case Reloading => s1.(reloadRequested := true)
    case Raised(_) => s1
  }

  /** The rest of `handleTranslation` once the text and its anchor are known. */
  function Respond(s: State, e: Extraction, forced: bool, send: Channel): (r: State)
    ensures r.settings == s.settings && r.isKeyPressed == s.isKeyPressed && r.lastMouse == s.lastMouse
    ensures r.hoverTimer == s.hoverTimer && r.selectionTimer == s.selectionTimer
    ensures r.timers == s.timers && r.nextTimerId == s.nextTimerId
    ensures Appended(s.sent, r.sent) && |r.sent| <= |s.sent| + 2
  {
    match Decide(s, forced, e)
    case Suppress => HidePopup(s)
    case Reuse(translation, p) => ShowPopup(s, translation, p)
    case Fetch(text) =>
      var x := RequestTranslation(s.settings, send, text);
      assert (s.sent + x.sent)[..|s.sent|] == s.sent;
      Settle(s, e, x)
  }

  /** `handleTranslation(e, forceNewTranslation)` for an event at `at`, run to completion. It
      leaves the settings, the key state, the pointer and the timeouts alone, and appends at most
      two messages. */
  function HandleTranslation(s: State, at: Point, forced: bool, page: Page, send: Channel): (r: State)
    ensures r.settings == s.settings && r.isKeyPressed == s.isKeyPressed && r.lastMouse == s.lastMouse
    ensures r.hoverTimer == s.hoverTimer && r.selectionTimer == s.selectionTimer
    ensures r.timers == s.timers && r.nextTimerId == s.nextTimerId
    ensures Appended(s.sent, r.sent) && |r.sent| <= |s.sent| + 2
  {
    Respond(s, Extract(page, at), forced, send)
  }

  // ---------------------------------------------------------------------------------------------
  // The event handlers

  /** `handleSelectionChange()`: it only hides the popup or re-arms the selection timeout, and
      never sends, touches the cache, the key state or the hover timeout. */
  function OnSelectionChange(s: State, page: Page): (r: State)
    ensures r == s.(display := r.display, timers := r.timers, selectionTimer := r.selectionTimer, nextTimerId := r.nextTimerId)
    ensures r.display == s.display || r.display == Hidden
  {
    if s.settings.pressToTranslate then s
    else if Trim(page.selection) == "" then HidePopup(s)
    else Rearm(s, SelectionTask)
  }

  /** `handleMouseMove(e)`: it records the pointer; in hover mode it only re-arms the hover
      timeout, and in press mode it arms none. */
  function OnMouseMove(s: State, at: Point, page: Page, send: Channel): (r: State)
    ensures r.lastMouse == at && r.settings == s.settings && Appended(s.sent, r.sent)
    ensures !s.settings.pressToTranslate ==>
      r == s.(lastMouse := at, timers := r.timers, hoverTimer := r.hoverTimer, nextTimerId := r.nextTimerId)
    ensures s.settings.pressToTranslate ==>
      r.timers == s.timers && r.hoverTimer == s.hoverTimer && r.selectionTimer == s.selectionTimer
  {
    var moved := s.(lastMouse := at);
    if s.settings.pressToTranslate then
      if s.isKeyPressed then HandleTranslation(moved, at, false, page, send) else HidePopup(moved)
    else Rearm(moved, HoverTask(at))
  }

  /** `handleMouseOut()`. The listener is on the document and `mouseout` bubbles, so it runs
      each time the pointer leaves any element, not only the window. It hides the popup and drops
      both timeout handles, and sends nothing. */
  function OnMouseOut(s: State): (r: State)
    ensures r.display == Hidden && r.hoverTimer.None? && r.selectionTimer.None?
    ensures r.sent == s.sent && r.settings == s.settings && r.lastMouse == s.lastMouse
  {
    if s.settings.pressToTranslate then Release(s) else ClearPending(s)
  }

  /** `handleKeyDown(e)`: a forced translation at the last mouse position. It does nothing
      outside press mode and never moves the pointer or touches the timeouts. */
  function OnKeyDown(s: State, e: KeyEvent, page: Page, send: Channel): (r: State)
    ensures !s.settings.pressToTranslate ==> r == s
    ensures r.settings == s.settings && r.lastMouse == s.lastMouse && Appended(s.sent, r.sent)
    ensures r.timers == s.timers && r.hoverTimer == s.hoverTimer && r.selectionTimer == s.selectionTimer
  {
    if !s.settings.pressToTranslate then s
    else if IsRequiredKeyPressed(s.settings, e) then HandleTranslation(s.(isKeyPressed := true), s.lastMouse, true, page, send)
    else s
  }

  /** `handleKeyUp(e)` as written: it tests the modifier flags of the release event. Either
      nothing changes or the key state, the popup, the timeout handles and the cache are dropped. */
  function OnKeyUpAsWritten(s: State, e: KeyEvent): (r: State)
    ensures r.sent == s.sent && r.settings == s.settings && r.lastMouse == s.lastMouse
    ensures r == s || r == Release(s)
    ensures s.settings.pressToTranslate && IsRequiredKeyPressed(s.settings, e) ==> r == Release(s)
    ensures !(s.settings.pressToTranslate && IsRequiredKeyPressed(s.settings, e)) ==> r == s
  {
    if !s.settings.pressToTranslate then s
    else if IsRequiredKeyPressed(s.settings, e) then Release(s)
    else s
  }

  /** `handleKeyUp(e)` recognising the release of the configured modifier itself. Either nothing
      changes or the key state, the popup, the timeout handles and the cache are dropped. */
  function OnKeyUp(s: State, e: KeyEvent): (r: State)
    ensures r.sent == s.sent && r.settings == s.settings && r.lastMouse == s.lastMouse
    ensures r == s || r == Release(s)
    ensures s.settings.pressToTranslate && ReleasesRequiredKey(s.settings, e) ==> r == Release(s)
    ensures !(s.settings.pressToTranslate && ReleasesRequiredKey(s.settings, e)) ==> r == s
  {
    if !s.settings.pressToTranslate then s
    else if ReleasesRequiredKey(s.settings, e) then Release(s)
    else s
  }

  /** The `storage.watch` callback: new settings reset the key state, the popup, the timeouts and
      the cache; a falsy value is ignored. */
  function OnSettingsChanged(s: State, newSettings: Option<Settings>): (r: State)
    ensures r.sent == s.sent && r.lastMouse == s.lastMouse
    ensures newSettings.None? ==> r == s
    ensures newSettings.Some? ==>
      && r.settings == newSettings.value && !r.isKeyPressed && r.display == Hidden
      && r.hoverTimer.None? && r.selectionTimer.None?
      && r.lastTranslatedText.None? && r.lastTranslatedResult.None?
  {
    match newSettings
    case None => s
    case Some(n) => Release(s.(settings := n))
  }

  /** What `storage.getItem('local:settings')` gives: the stored value, or a rejection. */
  datatype StorageRead = Stored(value: Option<Settings>) | ReadFailed(message: string)

  /** `loadSettings()` and its `catch`: stored settings replace the current ones without any
      reset; the invalidated-context error asks for a reload. Nothing else changes. */
  function OnSettingsLoaded(s: State, read: StorageRead): (r: State)
    ensures r == s.(settings := r.settings, reloadRequested := r.reloadRequested)
  {
    match read
    case Stored(None) => s
    case Stored(Some(stored)) => s.(settings := stored)
    case ReadFailed(message) => if Contains(message, ContextInvalidated) then s.(reloadRequested := true) else s
  }

  /**
   * The timeout `id` fires: it leaves the table (its variable keeps the stale handle). The hover
   * callback forces a translation at the event it was armed with; the selection callback
   * translates at the rectangle's bottom-left corner when the selection has a range.
   */
  function OnTimeout(s: State, id: TimerId, page: Page, send: Channel): (r: State)
    requires id in s.timers
    ensures r.timers == s.timers - {id}
    ensures r.hoverTimer == s.hoverTimer && r.selectionTimer == s.selectionTimer
    ensures r.settings == s.settings && r.lastMouse == s.lastMouse && Appended(s.sent, r.sent)
  {
    var s1 := s.(timers := s.timers - {id});
    match s.timers[id].task
    case HoverTask(at) => HandleTranslation(s1, at, true, page, send)
    case SelectionTask =>
      match page.selectionRect
      case Some(rect) => HandleTranslation(s1, Point(rect.left, rect.bottom), false, page, send)
      case None => s1
  }

  /** The events the script listens to, with what each handler reads from outside. */
  datatype Event =
    | MouseMove(at: Point)
    | MouseOut
    | SelectionChange
    | KeyDown(key: KeyEvent)
    | KeyUp(key: KeyEvent)
    | SettingsChanged(newSettings: Option<Settings>)
    | SettingsLoaded(read: StorageRead)
    | TimeoutFired(id: TimerId)

  /** One event handled; a cleared timeout never fires. Messages are only ever appended, and
      only a mouse move changes the pointer. */
  function Step(s: State, ev: Event, page: Page, send: Channel): (r: State)
    ensures Appended(s.sent, r.sent)
    ensures !ev.MouseMove? ==> r.lastMouse == s.lastMouse
  {
    match ev
    case MouseMove(at) => OnMouseMove(s, at, page, send)
    case MouseOut => OnMouseOut(s)
    case SelectionChange => OnSelectionChange(s, page)
    case KeyDown(e) => OnKeyDown(s, e, page, send)
    case KeyUp(e) => OnKeyUp(s, e)
    case SettingsChanged(n) => OnSettingsChanged(s, n)
    case SettingsLoaded(read) => OnSettingsLoaded(s, read)
    case TimeoutFired(id) => if id in s.timers then OnTimeout(s, id, page, send) else s
  }

  /** A sequence of events, each seeing the page of its own moment; one messaging channel
      serves the whole run. The log of messages sent only grows. */
  function Run(s: State, events: seq<Event>, pages: seq<Page>, send: Channel): (r: State)
    requires |pages| == |events|
    ensures Appended(s.sent, r.sent)
    decreases |events|
  {
    if |events| == 0 then s
    else
      var next := Step(s, events[0], pages[0], send);
      var r := Run(next, events[1..], pages[1..], send);
      AppendedTransitive(s.sent, next.sent, r.sent);
      r
  }

  /** `log` starts with `prefix`: messages are only added at the end. */
  predicate Appended(prefix: seq<Message>, log: seq<Message>) {
    |prefix| <= |log| && log[..|prefix|] == prefix
  }

  lemma AppendedTransitive(a: seq<Message>, b: seq<Message>, c: seq<Message>)
    requires Appended(a, b) && Appended(b, c)
    ensures Appended(a, c)
  {
    assert c[..|a|] == c[..|b|][..|a|];
  }

  /** `handleMouseMove` for each point in turn, with the same page and messaging. */
  function Moves(s: State, points: seq<Point>, page: Page, send: Channel): State
    decreases |points|
  {
    if |points| == 0 then s else Moves(OnMouseMove(s, points[0], page, send), points[1..], page, send)
  }

  // ---------------------------------------------------------------------------------------------
  // Invariant

  lemma InitialValid()
    ensures Valid(Initial)
    ensures Initial.settings.pressToTranslate && Initial.settings.keyToPress == "alt"
  {
  }

  /** With the invariant, clearing both timeouts leaves none pending. */
  lemma ClearPendingEmptiesTimers(s: State)
    requires Valid(s)
    ensures ClearPending(s).timers == map[]
    ensures Valid(ClearPending(s))
  {
    var t := ClearPending(s).timers;
    forall id | id in s.timers ensures id !in t {
      if s.timers[id].task.HoverTask? {
        assert s.hoverTimer == Some(id);
      } else {
        assert s.selectionTimer == Some(id);
      }
    }
    assert t.Keys == {};
  }

  /** Re-arming a timeout leaves exactly one of its kind pending: the new one, with the task. */
  lemma RearmReplaces(s: State, task: Task)
    requires Valid(s)
    ensures var r := Rearm(s, task);
      && Valid(r)
      && (forall id :: id in r.timers && r.timers[id].task.HoverTask? == task.HoverTask? ==> id == s.nextTimerId)
      && s.nextTimerId in r.timers && r.timers[s.nextTimerId].task == task
      && (task.HoverTask? ==> r.hoverTimer == Some(s.nextTimerId) && r.selectionTimer == s.selectionTimer)
      && (task.SelectionTask? ==> r.selectionTimer == Some(s.nextTimerId) && r.hoverTimer == s.hoverTimer)
  {
  }

  lemma SettlePreservesValid(s: State, e: Extraction, x: Exchange)
    requires Valid(s)
    requires e.text != ""
    requires x.outcome.Translated? ==> x.outcome.translation != ""
    ensures Valid(Settle(s, e, x))
  {
  }

  lemma RespondPreservesValid(s: State, e: Extraction, forced: bool, send: Channel)
    requires Valid(s)
    ensures Valid(Respond(s, e, forced, send))
  {
    if Decide(s, forced, e).Fetch? {
      SettlePreservesValid(s, e, RequestTranslation(s.settings, send, e.text));
    }
  }

  lemma HandleTranslationPreservesValid(s: State, at: Point, forced: bool, page: Page, send: Channel)
    requires Valid(s)
    ensures Valid(HandleTranslation(s, at, forced, page, send))
  {
    RespondPreservesValid(s, Extract(page, at), forced, send);
  }

  lemma MouseMovePreservesValid(s: State, at: Point, page: Page, send: Channel)
    requires Valid(s)
    ensures Valid(OnMouseMove(s, at, page, send))
  {
    var moved := s.(lastMouse := at);
    if s.settings.pressToTranslate {
      HandleTranslationPreservesValid(moved, at, false, page, send);
    } else {
      RearmReplaces(moved, HoverTask(at));
    }
  }

  lemma SelectionChangePreservesValid(s: State, page: Page)
    requires Valid(s)
    ensures Valid(OnSelectionChange(s, page))
  {
    if !s.settings.pressToTranslate && Trim(page.selection) != "" {
      RearmReplaces(s, SelectionTask);
    }
  }

  lemma TimeoutPreservesValid(s: State, id: TimerId, page: Page, send: Channel)
    requires Valid(s) && id in s.timers
    ensures Valid(OnTimeout(s, id, page, send))
  {
    var s1 := s.(timers := s.timers - {id});
    assert Valid(s1);
    match s.timers[id].task
    case HoverTask(at) => HandleTranslationPreservesValid(s1, at, true, page, send);
    case SelectionTask =>
      if page.selectionRect.Some? {
        var rect := page.selectionRect.value;
        HandleTranslationPreservesValid(s1, Point(rect.left, rect.bottom), false, page, send);
      }
  }

  lemma KeyDownPreservesValid(s: State, e: KeyEvent, page: Page, send: Channel)
    requires Valid(s)
    ensures Valid(OnKeyDown(s, e, page, send))
  {
    if s.settings.pressToTranslate && IsRequiredKeyPressed(s.settings, e) {
      HandleTranslationPreservesValid(s.(isKeyPressed := true), s.lastMouse, true, page, send);
    }
  }

  lemma KeyUpPreservesValid(s: State, e: KeyEvent)
    requires Valid(s)
    ensures Valid(OnKeyUp(s, e))
  {
    ClearPendingEmptiesTimers(s);
  }

  /** The key-up handler as written keeps the invariant too. */
  lemma KeyUpAsWrittenPreservesValid(s: State, e: KeyEvent)
    requires Valid(s)
    ensures Valid(OnKeyUpAsWritten(s, e))
  {
    ClearPendingEmptiesTimers(s);
  }

  lemma MouseOutPreservesValid(s: State)
    requires Valid(s)
    ensures Valid(OnMouseOut(s))
  {
    ClearPendingEmptiesTimers(s);
  }

  lemma SettingsChangedPreservesValid(s: State, n: Option<Settings>)
    requires Valid(s)
    ensures Valid(OnSettingsChanged(s, n))
  {
    if n.Some? {
      ClearPendingEmptiesTimers(s.(settings := n.value));
    }
  }

  /** Every handler keeps the invariant. */
  lemma StepPreservesValid(s: State, ev: Event, page: Page, send: Channel)
    requires Valid(s)
    ensures Valid(Step(s, ev, page, send))
  {
    match ev
    case MouseMove(at) =>
      assert Step(s, ev, page, send) == OnMouseMove(s, at, page, send);
      MouseMovePreservesValid(s, at, page, send);
    case MouseOut =>
      assert Step(s, ev, page, send) == OnMouseOut(s);
      MouseOutPreservesValid(s);
    case SelectionChange =>
      assert Step(s, ev, page, send) == OnSelectionChange(s, page);
      SelectionChangePreservesValid(s, page);
    case KeyDown(e) =>
      assert Step(s, ev, page, send) == OnKeyDown(s, e, page, send);
      KeyDownPreservesValid(s, e, page, send);
    case KeyUp(e) =>
      assert Step(s, ev, page, send) == OnKeyUp(s, e);
      KeyUpPreservesValid(s, e);
    case SettingsChanged(n) =>
      assert Step(s, ev, page, send) == OnSettingsChanged(s, n);
      SettingsChangedPreservesValid(s, n);
    case SettingsLoaded(read) =>
      assert Step(s, ev, page, send) == OnSettingsLoaded(s, read);
    case TimeoutFired(id) =>
      if id in s.timers {
        assert Step(s, ev, page, send) == OnTimeout(s, id, page, send);
        TimeoutPreservesValid(s, id, page, send);
      }
  }

  /** Any sequence of events keeps the invariant. */
  lemma {:induction false} RunPreservesValid(s: State, events: seq<Event>, pages: seq<Page>, send: Channel)
    requires Valid(s) && |pages| == |events|
    ensures Valid(Run(s, events, pages, send))
    decreases |events|
  {
    if |events| > 0 {
      StepPreservesValid(s, events[0], pages[0], send);
      RunPreservesValid(Step(s, events[0], pages[0], send), events[1..], pages[1..], send);
    }
  }

  // ---------------------------------------------------------------------------------------------
  // handleTranslation

  /** The three outcomes of the guards, each with its exact condition. */
  lemma DecisionCases(s: State, forced: bool, e: Extraction)
    ensures Decide(s, forced, e) == Suppress <==>
      (s.settings.pressToTranslate && !s.isKeyPressed) || e.text == ""
    ensures Decide(s, forced, e).Reuse? <==>
      && (!s.settings.pressToTranslate || s.isKeyPressed) && e.text != "" && HasResult(s)
      && ((s.settings.pressToTranslate && !forced) || s.lastTranslatedText == Some(e.text))
    ensures Decide(s, forced, e).Reuse? ==> Decide(s, forced, e).translation == s.lastTranslatedResult.value
    ensures Decide(s, forced, e).Fetch? ==> Decide(s, forced, e).text == e.text && e.text != ""
  {
  }

  /** In press mode with the key up, or with no text, the popup is hidden and nothing else happens. */
  lemma Suppressed(s: State, at: Point, forced: bool, page: Page, send: Channel)
    requires (s.settings.pressToTranslate && !s.isKeyPressed) || Extract(page, at).text == ""
    ensures HandleTranslation(s, at, forced, page, send) == s.(display := Hidden)
  {
  }

  /** A request served from the cache only shows the cached translation at the decided point. */
  lemma RespondReuses(s: State, e: Extraction, forced: bool, send: Channel)
    requires Decide(s, forced, e).Reuse?
    ensures var d := Decide(s, forced, e);
      Respond(s, e, forced, send) == s.(display := Shown(d.translation, d.at.x + 15, d.at.y - 10))
  {
  }

  /** A request that is not served from the cache settles the exchange for its text. */
  lemma RespondFetches(s: State, e: Extraction, forced: bool, send: Channel)
    requires Decide(s, forced, e).Fetch?
    ensures Respond(s, e, forced, send) == Settle(s, e, RequestTranslation(s.settings, send, e.text))
  {
  }

  /** In press mode with the key held, an unforced request shows the cached translation 15 px right
      of and 10 px above the anchor, whatever the text now is, and sends nothing. */
  lemma PressModeShowsLastResult(s: State, at: Point, page: Page, send: Channel)
    requires s.settings.pressToTranslate && s.isKeyPressed && HasResult(s)
    requires Extract(page, at).text != ""
    ensures var a := Extract(page, at).anchor;
      HandleTranslation(s, at, false, page, send) == s.(display := Shown(s.lastTranslatedResult.value, a.x + 15, a.y - 10))
  {
    PressModeReuses(s, Extract(page, at), send);
  }

  lemma PressModeReuses(s: State, e: Extraction, send: Channel)
    requires s.settings.pressToTranslate && s.isKeyPressed && HasResult(s) && e.text != ""
    ensures Respond(s, e, false, send) == s.(display := Shown(s.lastTranslatedResult.value, e.anchor.x + 15, e.anchor.y - 10))
  {
    RespondReuses(s, e, false, send);
  }

  /** When the text is the cached one, nothing is sent, even for a forced request: the popup is
      hidden or shows the cached translation, and nothing else changes. */
  lemma CacheHitSendsNothing(s: State, at: Point, forced: bool, page: Page, send: Channel)
    requires HasResult(s) && s.lastTranslatedText == Some(Extract(page, at).text)
    ensures var r := HandleTranslation(s, at, forced, page, send);
      && r.sent == s.sent
      && r == s.(display := r.display)
      && (r.display.Hidden? || r.display.text == s.lastTranslatedResult.value)
  {
    CachedTextSendsNothing(s, Extract(page, at), forced, send);
  }

  lemma CachedTextSendsNothing(s: State, e: Extraction, forced: bool, send: Channel)
    requires HasResult(s) && s.lastTranslatedText == Some(e.text)
    ensures var r := Respond(s, e, forced, send);
      && r.sent == s.sent
      && r == s.(display := r.display)
      && (r.display.Hidden? || r.display.text == s.lastTranslatedResult.value)
  {
    if Decide(s, forced, e).Reuse? {
      RespondReuses(s, e, forced, send);
    }
  }

  /** A request that is not served from the cache sends the exchange's messages; a translation is
      cached with its text and anchor and shown, anything else leaves the cache and the popup. */
  lemma FetchRecordsExchange(s: State, at: Point, forced: bool, page: Page, send: Channel)
    requires Decide(s, forced, Extract(page, at)).Fetch?
    ensures var e := Extract(page, at);
      var x := RequestTranslation(s.settings, send, e.text);
      var r := HandleTranslation(s, at, forced, page, send);
      && r.sent == s.sent + x.sent
      && (r.reloadRequested <==> s.reloadRequested || x.outcome.Reloading?)
      && (x.outcome.Translated? ==>
            && r.lastTranslatedText == Some(e.text)
            && r.lastTranslatedResult == Some(x.outcome.translation)
            && r.lastTranslationPosition == e.anchor
            && r.display == Shown(x.outcome.translation, Nudge(e).x + 15, Nudge(e).y - 10))
      && (!x.outcome.Translated? ==>
            && r.lastTranslatedText == s.lastTranslatedText
            && r.lastTranslatedResult == s.lastTranslatedResult
            && r.display == s.display)
  {
    RespondFetches(s, Extract(page, at), forced, send);
  }

  /**
   * Where a newly shown popup goes: 30 px right of and 20 px above the pointer for the word under
   * it (15 and 10 when press mode re-shows the last result), 15 px right of the selection's left
   * edge and 5 px above its bottom for a selection with a range, and 15/10 from the pointer for a
   * selection without one.
   */
  lemma PopupPosition(s: State, at: Point, forced: bool, page: Page, send: Channel)
    requires var r := HandleTranslation(s, at, forced, page, send); r.display.Shown? && r.display != s.display
    ensures var d := HandleTranslation(s, at, forced, page, send).display;
      && (Trim(page.selection) == "" && s.settings.pressToTranslate && HasResult(s) && !forced ==>
            d.x == at.x + 15 && d.y == at.y - 10)
      && (Trim(page.selection) == "" && !(s.settings.pressToTranslate && HasResult(s) && !forced) ==>
            d.x == at.x + 30 && d.y == at.y - 20)
      && (Trim(page.selection) != "" && page.selectionRect.Some? ==>
            d.x == page.selectionRect.value.left + 15 && d.y == page.selectionRect.value.bottom - 5)
      && (Trim(page.selection) != "" && page.selectionRect.None? ==>
            d.x == at.x + 15 && d.y == at.y - 10)
  {
    var e := Extract(page, at);
    var p := ShownFrom(s, at, forced, page, send);
    if Trim(page.selection) != "" {
      assert Nudge(e) == e.anchor;
    }
  }

  /** A newly shown popup goes 15 px right of and 10 px above the anchor when press mode re-shows
      the last result, and of the nudged anchor otherwise. */
  lemma ShownFrom(s: State, at: Point, forced: bool, page: Page, send: Channel) returns (p: Point)
    requires var r := HandleTranslation(s, at, forced, page, send); r.display.Shown? && r.display != s.display
    ensures var e := Extract(page, at);
      p == (if s.settings.pressToTranslate && HasResult(s) && !forced then e.anchor else Nudge(e))
    ensures var d := HandleTranslation(s, at, forced, page, send).display; d.x == p.x + 15 && d.y == p.y - 10
  {
    var e := Extract(page, at);
    p := if s.settings.pressToTranslate && HasResult(s) && !forced then e.anchor else Nudge(e);
    assert HandleTranslation(s, at, forced, page, send) == Respond(s, e, forced, send);
    match Decide(s, forced, e)
    case Suppress =>
    case Reuse(_, _) =>
    case Fetch(_) =>
      FetchRecordsExchange(s, at, forced, page, send);
  }

  /** Once a text's translation is cached, asking again for the same text, at any point, forced or
      not, sends no message. */
  lemma SameTextTranslatedOnce(s: State, at1: Point, forced1: bool, page1: Page, send1: Channel,
                               at2: Point, forced2: bool, page2: Page, send2: Channel)
    requires Valid(s)
    requires HandleTranslation(s, at1, forced1, page1, send1).lastTranslatedText == Some(Extract(page1, at1).text)
    requires Extract(page2, at2).text == Extract(page1, at1).text
    ensures var r1 := HandleTranslation(s, at1, forced1, page1, send1);
      HandleTranslation(r1, at2, forced2, page2, send2).sent == r1.sent
  {
    HandleTranslationPreservesValid(s, at1, forced1, page1, send1);
    var r1 := HandleTranslation(s, at1, forced1, page1, send1);
    CacheHitSendsNothing(r1, at2, forced2, page2, send2);
  }

  // ---------------------------------------------------------------------------------------------
  // The handlers

  /** In hover mode a run of mouse moves leaves exactly one hover timeout pending, armed with the
      last point, and changes nothing but the pointer and the timeouts. */
  lemma {:induction false} HoverDebounce(s: State, points: seq<Point>, page: Page, send: Channel)
    requires Valid(s) && !s.settings.pressToTranslate && |points| > 0
    ensures var r := Moves(s, points, page, send);
      && Valid(r)
      && r.lastMouse == points[|points| - 1]
      && r.hoverTimer.Some? && r.hoverTimer.value in r.timers
      && r.timers[r.hoverTimer.value].task == HoverTask(points[|points| - 1])
      && (forall id :: id in r.timers && r.timers[id].task.HoverTask? ==> id == r.hoverTimer.value)
      && r == s.(lastMouse := points[|points| - 1], timers := r.timers, hoverTimer := r.hoverTimer, nextTimerId := r.nextTimerId)
    decreases |points|
  {
    var s1 := OnMouseMove(s, points[0], page, send);
    RearmReplaces(s.(lastMouse := points[0]), HoverTask(points[0]));
    if |points| > 1 {
      HoverDebounce(s1, points[1..], page, send);
      assert points[1..][|points[1..]| - 1] == points[|points| - 1];
    }
  }

  /** ... and when that timeout fires, a forced translation runs at the last point. */
  lemma HoverFiresAtLastPoint(s: State, points: seq<Point>, page: Page, send: Channel, later: Page, send2: Channel)
    requires Valid(s) && !s.settings.pressToTranslate && |points| > 0
    ensures var r := Moves(s, points, page, send);
      r.hoverTimer.Some? && r.hoverTimer.value in r.timers &&
      Step(r, TimeoutFired(r.hoverTimer.value), later, send2) ==
        HandleTranslation(r.(timers := r.timers - {r.hoverTimer.value}), points[|points| - 1], true, later, send2)
  {
    HoverDebounce(s, points, page, send);
    var r := Moves(s, points, page, send);
    HoverTimeoutTranslates(r, r.hoverTimer.value, points[|points| - 1], later, send2);
  }

  /** A pending hover timeout, when it fires, runs a forced translation at its point. */
  lemma HoverTimeoutTranslates(s: State, id: TimerId, at: Point, page: Page, send: Channel)
    requires id in s.timers && s.timers[id].task == HoverTask(at)
    ensures Step(s, TimeoutFired(id), page, send) == HandleTranslation(s.(timers := s.timers - {id}), at, true, page, send)
  {
  }

  /** A pending selection timeout, when it fires, runs an unforced translation at the left and
      bottom of the selection's rectangle, and without a range it only drops the timeout. */
  lemma SelectionTimeoutTranslates(s: State, id: TimerId, page: Page, send: Channel)
    requires id in s.timers && s.timers[id].task == SelectionTask
    ensures page.selectionRect.Some? ==>
      var rect := page.selectionRect.value;
      Step(s, TimeoutFired(id), page, send) ==
        HandleTranslation(s.(timers := s.timers - {id}), Point(rect.left, rect.bottom), false, page, send)
    ensures page.selectionRect.None? ==> Step(s, TimeoutFired(id), page, send) == s.(timers := s.timers - {id})
  {
  }

  /** In hover mode a non-empty selection leaves exactly one selection timeout pending; an empty
      one hides the popup; in press mode selection changes are ignored. */
  lemma SelectionDebounce(s: State, page: Page)
    requires Valid(s)
    ensures s.settings.pressToTranslate ==> OnSelectionChange(s, page) == s
    ensures !s.settings.pressToTranslate && Trim(page.selection) == "" ==> OnSelectionChange(s, page) == s.(display := Hidden)
    ensures !s.settings.pressToTranslate && Trim(page.selection) != "" ==>
      var r := OnSelectionChange(s, page);
      && Valid(r)
      && r.selectionTimer == Some(s.nextTimerId) && s.nextTimerId in r.timers
      && r.timers[s.nextTimerId] == Timeout(SelectionTask, s.settings.translationDelay)
      && (forall id :: id in r.timers && r.timers[id].task.SelectionTask? ==> id == s.nextTimerId)
      && r.hoverTimer == s.hoverTimer && r.display == s.display
  {
    if !s.settings.pressToTranslate && Trim(page.selection) != "" {
      RearmReplaces(s, SelectionTask);
    }
  }

  /** In press mode, moving with the key held translates unforced at the pointer; moving with the
      key up hides the popup. */
  lemma PressModeMove(s: State, at: Point, page: Page, send: Channel)
    requires s.settings.pressToTranslate
    ensures s.isKeyPressed ==>
      OnMouseMove(s, at, page, send) == HandleTranslation(s.(lastMouse := at), at, false, page, send)
    ensures !s.isKeyPressed ==> OnMouseMove(s, at, page, send) == s.(lastMouse := at, display := Hidden)
  {
  }

  /** In press mode with the key up, a run of moves only records the pointer and hides the popup. */
  lemma {:induction false} KeyUpMovesOnlyHide(s: State, points: seq<Point>, page: Page, send: Channel)
    requires s.settings.pressToTranslate && !s.isKeyPressed && |points| > 0
    ensures Moves(s, points, page, send) == s.(lastMouse := points[|points| - 1], display := Hidden)
    decreases |points|
  {
    var s1 := OnMouseMove(s, points[0], page, send);
    if |points| > 1 {
      KeyUpMovesOnlyHide(s1, points[1..], page, send);
      assert points[1..][|points[1..]| - 1] == points[|points| - 1];
    }
  }

  /** Because the `mouseout` listener sits on the document, the pointer crossing from one element
      to another ends press mode's translating: after it, moves with the key still held send
      nothing and show nothing until the key goes down again. */
  lemma CrossingElementEndsPress(s: State, points: seq<Point>, page: Page, send: Channel)
    requires s.settings.pressToTranslate && |points| > 0
    ensures var r := Moves(OnMouseOut(s), points, page, send);
      && r == OnMouseOut(s).(lastMouse := points[|points| - 1])
      && !r.isKeyPressed && r.display == Hidden && r.sent == s.sent && r.lastTranslatedResult.None?
  {
    KeyUpMovesOnlyHide(OnMouseOut(s), points, page, send);
  }

  /** Key events do nothing outside press mode; pressing the required key forces a translation at
      the last mouse position. */
  lemma KeyDownTranslates(s: State, e: KeyEvent, page: Page, send: Channel)
    ensures !s.settings.pressToTranslate ==> OnKeyDown(s, e, page, send) == s && OnKeyUp(s, e) == s
    ensures s.settings.pressToTranslate && !IsRequiredKeyPressed(s.settings, e) ==> OnKeyDown(s, e, page, send) == s
    ensures s.settings.pressToTranslate && IsRequiredKeyPressed(s.settings, e) ==>
      OnKeyDown(s, e, page, send) == HandleTranslation(s.(isKeyPressed := true), s.lastMouse, true, page, send)
  {
  }

  /** The pointer leaving any element hides the popup and clears both timeouts; only in press mode
      does it also drop the key state and the translation cache. Nothing else changes. */
  lemma MouseOutClears(s: State)
    requires Valid(s)
    ensures Valid(OnMouseOut(s))
    ensures s.settings.pressToTranslate ==> OnMouseOut(s) == s.(isKeyPressed := false, display := Hidden,
      timers := map[], hoverTimer := None, selectionTimer := None, lastTranslatedText := None, lastTranslatedResult := None)
    ensures !s.settings.pressToTranslate ==> OnMouseOut(s) == s.(display := Hidden,
      timers := map[], hoverTimer := None, selectionTimer := None)
  {
    ClearPendingEmptiesTimers(s);
  }

  /** Releasing the key in press mode drops the key state, the popup, the timeouts and the cache. */
  lemma KeyUpClears(s: State, e: KeyEvent)
    requires Valid(s) && s.settings.pressToTranslate && ReleasesRequiredKey(s.settings, e)
    ensures OnKeyUp(s, e) == s.(isKeyPressed := false, display := Hidden, timers := map[],
      hoverTimer := None, selectionTimer := None, lastTranslatedText := None, lastTranslatedResult := None)
  {
    ClearPendingEmptiesTimers(s);
  }

  /** New settings replace the old ones and reset the key state, the popup, the timeouts and the
      cache; a falsy value changes nothing. */
  lemma SettingsChangeResets(s: State, n: Option<Settings>)
    requires Valid(s)
    ensures n.None? ==> OnSettingsChanged(s, n) == s
    ensures n.Some? ==> OnSettingsChanged(s, n) == s.(settings := n.value, isKeyPressed := false, display := Hidden,
      timers := map[], hoverTimer := None, selectionTimer := None, lastTranslatedText := None, lastTranslatedResult := None)
  {
    if n.Some? {
      ClearPendingEmptiesTimers(s.(settings := n.value));
    }
  }

  /** Loading stored settings replaces them without any reset; a failed read reloads the page only
      for the invalidated-context error. */
  lemma SettingsLoadKeepsState(s: State, read: StorageRead)
    ensures var r := OnSettingsLoaded(s, read);
      && (read == Stored(None) ==> r == s)
      && (read.Stored? && read.value.Some? ==> r.settings == read.value.value)
      && (read.ReadFailed? ==>
            r.settings == s.settings &&
            (r.reloadRequested <==> s.reloadRequested || Contains(read.message, ContextInvalidated)))
  {
  }

  /** After the key is released (or the settings change), pressing it again asks the background
      afresh: the first message sent is the detection of the text under the pointer. */
  lemma PressAgainFetches(s: State, up: KeyEvent, down: KeyEvent, page: Page, send: Channel)
    requires Valid(s) && s.settings.pressToTranslate
    requires ReleasesRequiredKey(s.settings, up) && IsRequiredKeyPressed(s.settings, down)
    requires Extract(page, s.lastMouse).text != ""
    ensures var r := OnKeyDown(OnKeyUp(s, up), down, page, send);
      |r.sent| > |s.sent| && r.sent[|s.sent|] == DetectMessage(Extract(page, s.lastMouse).text)
  {
    KeyUpClears(s, up);
    var released := OnKeyUp(s, up).(isKeyPressed := true);
    var e := Extract(page, s.lastMouse);
    assert Decide(released, true, e) == Fetch(e.text);
    FetchRecordsExchange(released, s.lastMouse, true, page, send);
  }

  // ---------------------------------------------------------------------------------------------
  // Releasing the modifier

  /**
   * As written, releasing the configured modifier does nothing: the key stays "pressed", the popup
   * and the cache stay, and the next mouse move keeps translating. With the release recognised,
   * the same event clears everything and the next move hides the popup.
   */
  lemma ModifierReleaseMissed(s: State, e: KeyEvent, at: Point, page: Page, send: Channel)
    requires Valid(s) && s.settings.pressToTranslate && s.isKeyPressed
    requires s.settings.keyToPress in {"ctrl", "alt", "cmd", "opt"}
    requires IsReleaseOf(e, ModifierKeyName(s.settings.keyToPress).value)
    ensures OnKeyUpAsWritten(s, e) == s
    ensures OnMouseMove(OnKeyUpAsWritten(s, e), at, page, send) ==
      HandleTranslation(s.(lastMouse := at), at, false, page, send)
    ensures var r := OnKeyUp(s, e);
      !r.isKeyPressed && r.display == Hidden && r.lastTranslatedResult.None? &&
      OnMouseMove(r, at, page, send).display == Hidden
  {
    ReleaseMissedAsWritten(s.settings, e);
    ReleaseRecognised(s.settings, e);
  }

  /** The concrete case: with the default settings (press mode, `alt`), the release of Alt. */
  lemma AltReleaseExample()
    ensures IsReleaseOf(KeyEvent("Alt", false, false, false), "Alt")
    ensures !IsRequiredKeyPressed(DefaultSettings, KeyEvent("Alt", false, false, false))
    ensures ReleasesRequiredKey(DefaultSettings, KeyEvent("Alt", false, false, false))
  {
  }
}
