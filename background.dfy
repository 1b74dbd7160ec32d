/**
 * The background worker of `src/entrypoints/background.ts`: it answers `detect` and `translate`
 * messages by querying the `translate_a/single` endpoint and shaping the JSON it returns.
 * The endpoint is a parameter: a function from the query's parameters to the HTTP outcome.
 */
module Background {
  import opened Wrappers
  import opened JsValues
  import opened Messages

  const Client := "gtx"
  const DataKind := "t"
  const AutoLanguage := "auto"
  const DefaultTarget := "en"
  const DetectFailure := "Failed to detect language"
  const TranslateFailure := "Failed to translate text"

  /** The query parameters of `translate_a/single?client=..&sl=..&tl=..&dt=..&q=..`. */
  datatype Query = Query(client: string, sl: string, tl: string, dt: string, q: string)

  /** What `fetch` gives: a rejected promise, or a response whose body may or may not parse as JSON. */
  datatype HttpResponse = NetworkError | Response(ok: bool, body: Option<JsValue>)

  type Endpoint = Query -> HttpResponse

  /** Detection always asks for a translation from `auto` to `en` and reads the detected language. */
  function DetectQuery(text: string): (q: Query)
    ensures q.sl == AutoLanguage && q.tl == "en" && q.q == text
  {
    Query(Client, AutoLanguage, "en", DataKind, text)
  }

  function TranslateQuery(text: string, targetLang: string): (q: Query)
    ensures q.sl == AutoLanguage && q.tl == targetLang && q.q == text
  {
    Query(Client, AutoLanguage, targetLang, DataKind, text)
  }

  /** `await response.json()` after the `response.ok` check; `None` wherever the code throws. */
  function JsonBody(r: HttpResponse): (data: Option<JsValue>)
    ensures data.Some? <==> r.Response? && r.ok && r.body.Some?
  {
    match r
    case NetworkError => None
    case Response(ok, body) => if ok then body else None
  }

  /** `{ language: data[2] || 'auto' }`, or the detection error when `data[2]` throws. */
  function ShapeDetection(data: JsValue): (r: Reply)
    ensures r.LanguageReply? || r == ErrorReply(DetectFailure)
    ensures r.ErrorReply? <==> data.Undefined? || data.Null?
    ensures r.LanguageReply? ==> Truthy(r.language)
    ensures Index(data, 2).Some? && Truthy(Index(data, 2).value) ==> r == LanguageReply(Index(data, 2).value)
    ensures Index(data, 2).Some? && !Truthy(Index(data, 2).value) ==> r == LanguageReply(Str(AutoLanguage))
    ensures r.LanguageReply? && r.language != Str(AutoLanguage) ==> Index(data, 2) == Some(r.language)
  {
    match Index(data, 2)
    case None => ErrorReply(DetectFailure)
    case Some(v) => LanguageReply(if Truthy(v) then v else Str(AutoLanguage))
  }

  /** A JSON object is read by property name: `{"2": "fr"}` detects `fr`, and an object without
      that property detects `auto`. */
  lemma ObjectDetection()
    ensures ShapeDetection(Obj(map["2" := Str("fr")])) == LanguageReply(Str("fr"))
    ensures ShapeDetection(Obj(map["0" := Str("fr")])) == LanguageReply(Str(AutoLanguage))
  {
    assert NatToString(2) == "2";
  }

  /** `items.map(item => item[0])`; `None` when some item is null or undefined (the access throws). */
  function FirstElements(items: seq<JsValue>): (r: Option<seq<JsValue>>)
    ensures r.Some? <==> forall i :: 0 <= i < |items| ==> !items[i].Undefined? && !items[i].Null?
    ensures r.Some? ==> |r.value| == |items|
    ensures r.Some? ==> forall i :: 0 <= i < |items| ==> Index(items[i], 0) == Some(r.value[i])
  {
    if |items| == 0 then Some([])
    else
      match (Index(items[0], 0), FirstElements(items[1..]))
      case (Some(v), Some(vs)) => Some([v] + vs)
      case _ => None
  }

  /**
   * `data[0].map(item => item[0]).filter(Boolean).join(' ')`, or the translation error when any
   * step throws: `data` null, `data[0]` not an array, or an item null.
   */
  function ShapeTranslation(data: JsValue): (r: Reply)
    ensures r.TranslationReply? || r == ErrorReply(TranslateFailure)
    ensures r.ErrorReply? <==>
      || Index(data, 0).None?
      || !Index(data, 0).value.Arr?
      || exists i :: 0 <= i < |Index(data, 0).value.elems| &&
           (Index(data, 0).value.elems[i].Undefined? || Index(data, 0).value.elems[i].Null?)
  {
    match Index(data, 0)
    case None => ErrorReply(TranslateFailure)
    case Some(first) =>
      if !first.Arr? then ErrorReply(TranslateFailure)
      else
        match FirstElements(first.elems)
        case None => ErrorReply(TranslateFailure)
        case Some(firsts) => TranslationReply(JoinValues(Arr(FilterTruthy(firsts)), " "))
  }

  /** `detectLanguage(text)`. */
  function DetectLanguage(endpoint: Endpoint, text: string): (r: Reply)
    ensures r.LanguageReply? || r == ErrorReply(DetectFailure)
    ensures r.LanguageReply? ==> JsonBody(endpoint(DetectQuery(text))).Some?
    ensures JsonBody(endpoint(DetectQuery(text))).Some? ==> r == ShapeDetection(JsonBody(endpoint(DetectQuery(text))).value)
  {
    match JsonBody(endpoint(DetectQuery(text)))
    case None => ErrorReply(DetectFailure)
    case Some(data) => ShapeDetection(data)
  }

  /** `translateText(text, targetLang)`. */
  function TranslateText(endpoint: Endpoint, text: string, targetLang: string): (r: Reply)
    ensures r.TranslationReply? || r == ErrorReply(TranslateFailure)
    ensures r.TranslationReply? ==> JsonBody(endpoint(TranslateQuery(text, targetLang))).Some?
    ensures JsonBody(endpoint(TranslateQuery(text, targetLang))).Some? ==>
      r == ShapeTranslation(JsonBody(endpoint(TranslateQuery(text, targetLang))).value)
  {
    match JsonBody(endpoint(TranslateQuery(text, targetLang)))
    case None => ErrorReply(TranslateFailure)
    case Some(data) => ShapeTranslation(data)
  }

  /** The message listener: the reply it sends, or `None` when it leaves the message unanswered.
      Only `detect` and `translate` messages get an answer; detection answers with a language or
      its own error, translation with a translation or its own error. */
  function Dispatch(endpoint: Endpoint, request: Message): (r: Option<Reply>)
    ensures r.Some? <==> request.kind == DetectKind || request.kind == TranslateKind
    ensures request.kind == DetectKind ==> r.value.LanguageReply? || r.value == ErrorReply(DetectFailure)
    ensures request.kind == TranslateKind ==> r.value.TranslationReply? || r.value == ErrorReply(TranslateFailure)
  {
    if request.kind == DetectKind then Some(DetectLanguage(endpoint, request.text))
    else if request.kind == TranslateKind then
      Some(TranslateText(endpoint, request.text, request.targetLang.GetOr(DefaultTarget)))
    else None
  }

  // ---------------------------------------------------------------------------------------------
  // Properties

  /** A translate request answers exactly what the endpoint gives for `tl` = the requested target,
      or `en` when the request names none; detection only ever consults the `auto`→`en` query. */
  lemma DispatchConsultsOneQuery(e1: Endpoint, e2: Endpoint, request: Message)
    requires request.kind == DetectKind ==> e1(DetectQuery(request.text)) == e2(DetectQuery(request.text))
    requires request.kind == TranslateKind ==>
      var tl := request.targetLang.GetOr(DefaultTarget);
      e1(TranslateQuery(request.text, tl)) == e2(TranslateQuery(request.text, tl))
    ensures Dispatch(e1, request) == Dispatch(e2, request)
  {
  }

  /** `[s1, s2, ...]` as JSON strings. */
  function StrValues(ss: seq<string>): (r: seq<JsValue>)
    ensures |r| == |ss|
    ensures forall i :: 0 <= i < |ss| ==> r[i] == Str(ss[i])
  {
    if |ss| == 0 then [] else [Str(ss[0])] + StrValues(ss[1..])
  }

  /** The strings of `ss` that are not empty, in order. */
  function NonEmpty(ss: seq<string>): (r: seq<string>)
    ensures |r| <= |ss|
    ensures forall i :: 0 <= i < |r| ==> r[i] != "" && r[i] in ss
  {
    if |ss| == 0 then [] else if ss[0] == "" then NonEmpty(ss[1..]) else [ss[0]] + NonEmpty(ss[1..])
  }

  /** The strings among `heads`, in order. */
  function Present(heads: seq<Option<string>>): (r: seq<string>)
    ensures |r| <= |heads|
    ensures forall i :: 0 <= i < |r| ==> Some(r[i]) in heads
  {
    if |heads| == 0 then []
    else if heads[0].Some? then [heads[0].value] + Present(heads[1..])
    else Present(heads[1..])
  }

  /** `item[0]` is the string `head.value`, or, when `head` is `None`, a falsy value such as `null`,
      `undefined`, `0` or `false`. */
  predicate StartsWith(item: JsValue, head: Option<string>) {
    match Index(item, 0)
    case None => false
    case Some(v) => if head.Some? then v == Str(head.value) else !Truthy(v)
  }

  /** `filter(Boolean)` on first elements that are strings or falsy keeps the non-empty strings. */
  lemma {:induction false} FilterHeads(firsts: seq<JsValue>, heads: seq<Option<string>>)
    requires |firsts| == |heads|
    requires forall i :: 0 <= i < |firsts| ==>
      if heads[i].Some? then firsts[i] == Str(heads[i].value) else !Truthy(firsts[i])
    ensures FilterTruthy(firsts) == StrValues(NonEmpty(Present(heads)))
    decreases |firsts|
  {
    if |firsts| > 0 {
      var rest := NonEmpty(Present(heads[1..]));
      FilterHeads(firsts[1..], heads[1..]);
      match heads[0]
      case None =>
        assert Present(heads) == Present(heads[1..]);
      case Some(t) =>
        var present := Present(heads);
        assert present == [t] + Present(heads[1..]);
        assert present[1..] == Present(heads[1..]);
        if t != "" {
          assert NonEmpty(present) == [t] + rest;
          assert ([t] + rest)[1..] == rest;
        }
    }
  }

  /** `join` converts string elements to themselves. */
  lemma ElementStringsOfStrings(ss: seq<string>)
    ensures ElementStrings(Arr(StrValues(ss))) == ss
  {
  }

  /**
   * When each segment of `data[0]` starts with a string or with a falsy value, the translation is
   * the non-empty strings joined with single spaces; with none it is the empty string.
   */
  lemma TranslationJoinsSegments(data: JsValue, items: seq<JsValue>, heads: seq<Option<string>>)
    requires Index(data, 0) == Some(Arr(items))
    requires |items| == |heads|
    requires forall i :: 0 <= i < |items| ==> StartsWith(items[i], heads[i])
    ensures ShapeTranslation(data) == TranslationReply(Join(NonEmpty(Present(heads)), " "))
    ensures NonEmpty(Present(heads)) == [] ==> ShapeTranslation(data) == TranslationReply("")
  {
    forall i | 0 <= i < |items| ensures !items[i].Undefined? && !items[i].Null? {
      assert StartsWith(items[i], heads[i]);
    }
    var firsts := FirstElements(items).value;
    forall i | 0 <= i < |items|
      ensures if heads[i].Some? then firsts[i] == Str(heads[i].value) else !Truthy(firsts[i])
    {
      assert StartsWith(items[i], heads[i]);
    }
    FilterHeads(firsts, heads);
    ElementStringsOfStrings(NonEmpty(Present(heads)));
  }

  /** The worker's answer to a translate message: an OK body whose items start with `heads`
      answers the non-empty heads joined with single spaces. */
  lemma DispatchJoinsSegments(endpoint: Endpoint, request: Message, data: JsValue, items: seq<JsValue>, heads: seq<Option<string>>)
    requires request.kind == TranslateKind
    requires JsonBody(endpoint(TranslateQuery(request.text, request.targetLang.GetOr(DefaultTarget)))) == Some(data)
    requires Index(data, 0) == Some(Arr(items))
    requires |items| == |heads|
    requires forall i :: 0 <= i < |items| ==> StartsWith(items[i], heads[i])
    ensures Dispatch(endpoint, request) == Some(TranslationReply(Join(NonEmpty(Present(heads)), " ")))
  {
    TranslationJoinsSegments(data, items, heads);
  }

  /** Splitting the translation at spaces gives back the non-empty strings, when they hold no space. */
  lemma TranslationSplitsIntoSegments(data: JsValue, items: seq<JsValue>, heads: seq<Option<string>>)
    requires Index(data, 0) == Some(Arr(items))
    requires |items| == |heads|
    requires forall i :: 0 <= i < |items| ==> StartsWith(items[i], heads[i])
    requires forall i :: 0 <= i < |heads| && heads[i].Some? ==> ' ' !in heads[i].value
    requires NonEmpty(Present(heads)) != []
    ensures ShapeTranslation(data).TranslationReply?
    ensures Split(ShapeTranslation(data).translation, ' ') == NonEmpty(Present(heads))
  {
    TranslationJoinsSegments(data, items, heads);
    var kept := NonEmpty(Present(heads));
    forall i | 0 <= i < |kept| ensures ' ' !in kept[i] {
      assert kept[i] in Present(heads);
      var j :| 0 <= j < |Present(heads)| && Present(heads)[j] == kept[i];
      assert Some(kept[i]) in heads;
    }
    SplitJoin(kept, ' ');
  }
}
