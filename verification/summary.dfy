/**
 * `AIAssistant` of `utils/ai_assistant.py`: construction from the AI settings and
 * `generate_weekly_summary`, which builds one chat-completion request from the digest
 * of the daily reports and reads the reply. The HTTP transport and the JSON decoder
 * are parameters.
 */
module Summary {
  import opened Wrappers
  import opened Text
  import opened Settings
  import opened Fetcher
  import opened Digest

  /** A JSON value as `requests` encodes and decodes it (numbers kept integral). */
  datatype Json = Null | Bool(b: bool) | Num(n: int) | Str(s: string) | Arr(items: seq<Json>) | Obj(fields: map<string, Json>)

  /** One `requests.post(url, headers=..., json=..., timeout=...)`. */
  datatype Request = Request(url: Option<string>, headers: map<string, string>, payload: Json, timeout: nat)

  /** What the transport yields: a `requests.RequestException`, or a response. */
  datatype HttpOutcome = TransportError | Response(status: nat, text: string)

  /** Why `generate_weekly_summary` raised. */
  datatype Failure =
    | HttpError(message: string)  // the Exception raised for a status other than 200
    | NetworkError                // a RequestException, re-raised: from the transport, or the
                                  // requests.JSONDecodeError of `response.json()` on invalid JSON
    | BadResponse                 // valid JSON without choices[0].message.content

  datatype Outcome = NoReports(message: string) | Generated(content: Json) | Failed(failure: Failure)

  /** A constructed assistant: its API key passed the constructor's check. */
  datatype Assistant = Assistant(apiKey: string, apiUrl: Option<string>, model: Option<string>, systemPrompt: Option<string>)

  datatype Construction = Built(assistant: Assistant) | ValueError(message: string)

  const MissingKeyMessage := "AI API密钥未设置，请检查环境变量"
  const NoReportsMessage := "本周没有找到日报内容，无法生成周报。"
  const RequestTimeout := 30

  /** `AIAssistant(config)`: raises ValueError unless the API key is a non-empty string. */
  function NewAssistant(s: AiSettings): (r: Construction)
    ensures r.Built? <==> Truthy(s.apiKey)
    ensures r.Built? ==> (Some(r.assistant.apiKey) == s.apiKey && r.assistant.apiUrl == s.apiUrl &&
                          r.assistant.model == s.model && r.assistant.systemPrompt == s.systemPrompt)
    ensures r.ValueError? ==> r.message == MissingKeyMessage
  {
    if Truthy(s.apiKey) then Built(Assistant(s.apiKey.value, s.apiUrl, s.model, s.systemPrompt))
    else ValueError(MissingKeyMessage)
  }

  /** A configuration that passes `validate_config` always yields an assistant. */
  lemma ValidConfigBuildsAssistant(c: Config)
    requires ValidateConfig(c)
    ensures NewAssistant(c.ai).Built?
  {
  }

  /** A Python `None` or string, as JSON. */
  function OptStr(o: Option<string>): Json {
    if o.Some? then Str(o.value) else Null
  }

  function ChatMessage(role: string, content: Json): Json {
    Obj(map["role" := Str(role), "content" := content])
  }

  /** The request body: model, the system prompt and the digest as two messages, no streaming. */
  function Payload(a: Assistant, digest: string): Json {
    Obj(map[
      "model" := OptStr(a.model),
      "messages" := Arr([ChatMessage("system", OptStr(a.systemPrompt)), ChatMessage("user", Str(digest))]),
      "stream" := Bool(false)])
  }

  function Headers(a: Assistant): map<string, string> {
    map["Content-Type" := "application/json", "Authorization" := "Bearer " + a.apiKey]
  }

  /** The request `generate_weekly_summary` sends, or None when it returns before sending. */
  function RequestFor(a: Assistant, reports: seq<Report>, now: int, lib: DateLib): (r: Option<Request>)
    ensures r.None? <==> |reports| == 0
  {
    if |reports| == 0 then None
    else Some(Request(a.apiUrl, Headers(a), Payload(a, FormattedDigest(reports, now, lib)), RequestTimeout))
  }

  // ---- reading the reply ----

  /** `j[key]`; None where Python raises (a missing key, or `j` not an object). */
  function Member(j: Json, key: string): Option<Json> {
    if j.Obj? && key in j.fields then Some(j.fields[key]) else None
  }

  /**
   * `j[i]`; None where Python raises. Indexing a string also succeeds in Python, but the
   * next step of the reply path is a key lookup, which raises on a string, so strings
   * are treated as failing here already.
   */
  function Element(j: Json, i: nat): Option<Json> {
    if j.Arr? && i < |j.items| then Some(j.items[i]) else None
  }

  /** `j['choices'][0]['message']['content']`. */
  function ReplyContent(j: Json): Option<Json> {
    match Member(j, "choices")
    case None => None
    case Some(choices) =>
      match Element(choices, 0)
      case None => None
      case Some(choice) =>
        match Member(choice, "message")
        case None => None
        case Some(message) => Member(message, "content")
  }

  function HttpErrorMessage(status: nat, text: string): string {
    "AI请求失败: HTTP " + Decimal(status) + ", " + text
  }

  /** The reply: status 200 and a content field give the summary; anything else raises. */
  function Classify(o: HttpOutcome, parseJson: string -> Option<Json>): Outcome {
    match o
    case TransportError => Failed(NetworkError)
    case Response(status, text) =>
      if status == 200 then
        match parseJson(text)
        case None => Failed(NetworkError)  // requests.JSONDecodeError is a RequestException
        case Some(j) =>
          match ReplyContent(j)
          case None => Failed(BadResponse)
          case Some(content) => Generated(content)
      else
        Failed(HttpError(HttpErrorMessage(status, text)))
  }

  /** `generate_weekly_summary(daily_reports)`. */
  function WeeklySummary(a: Assistant, reports: seq<Report>, now: int, lib: DateLib,
                         post: Request -> HttpOutcome, parseJson: string -> Option<Json>): Outcome
  {
    match RequestFor(a, reports, now, lib)
    case None => NoReports(NoReportsMessage)
    case Some(req) => Classify(post(req), parseJson)
  }

  // ---- properties ----

  /**
   * The request carries the digest as the user message and the system prompt as the
   * system message, read back by the same indexing a server would use, with a bearer
   * token, JSON content type and a 30-second timeout.
   */
  lemma RequestCarriesDigest(a: Assistant, reports: seq<Report>, now: int, lib: DateLib)
    requires |reports| > 0
    ensures var req := RequestFor(a, reports, now, lib).value;
      && req.url == a.apiUrl && req.timeout == 30
      && req.headers["Authorization"] == "Bearer " + a.apiKey
      && req.headers["Content-Type"] == "application/json"
      && Member(req.payload, "model") == Some(OptStr(a.model))
      && Member(req.payload, "stream") == Some(Bool(false))
      && Member(req.payload, "messages").Some?
      && Element(Member(req.payload, "messages").value, 0).Some?
      && Member(Element(Member(req.payload, "messages").value, 0).value, "role") == Some(Str("system"))
      && Member(Element(Member(req.payload, "messages").value, 0).value, "content") == Some(OptStr(a.systemPrompt))
      && Element(Member(req.payload, "messages").value, 1).Some?
      && Member(Element(Member(req.payload, "messages").value, 1).value, "role") == Some(Str("user"))
      && Member(Element(Member(req.payload, "messages").value, 1).value, "content") ==
           Some(Str(FormattedDigest(reports, now, lib)))
      && Element(Member(req.payload, "messages").value, 2).None?
  {
    var digest := FormattedDigest(reports, now, lib);
    PayloadMembers(a, digest);
    ChatMessageMembers("system", OptStr(a.systemPrompt));
    ChatMessageMembers("user", Str(digest));
    HeadersMembers(a);
  }

  lemma PayloadMembers(a: Assistant, digest: string)
    ensures Member(Payload(a, digest), "model") == Some(OptStr(a.model))
    ensures Member(Payload(a, digest), "stream") == Some(Bool(false))
    ensures Member(Payload(a, digest), "messages") ==
      Some(Arr([ChatMessage("system", OptStr(a.systemPrompt)), ChatMessage("user", Str(digest))]))
  {
  }

  lemma ChatMessageMembers(role: string, content: Json)
    ensures Member(ChatMessage(role, content), "role") == Some(Str(role))
    ensures Member(ChatMessage(role, content), "content") == Some(content)
  {
  }

  lemma HeadersMembers(a: Assistant)
    ensures "Authorization" in Headers(a) && Headers(a)["Authorization"] == "Bearer " + a.apiKey
    ensures "Content-Type" in Headers(a) && Headers(a)["Content-Type"] == "application/json"
  {
  }

  /** No reports: the fixed message, whatever the transport would have answered. */
  lemma NoReportsSendsNothing(a: Assistant, now: int, lib: DateLib,
                              post: Request -> HttpOutcome, parseJson: string -> Option<Json>)
    ensures RequestFor(a, [], now, lib).None?
    ensures WeeklySummary(a, [], now, lib, post, parseJson) == NoReports(NoReportsMessage)
  {
  }

  /** The reply content of a well-formed chat-completion answer is its first choice's message content. */
  lemma ReplyContentOfAnswer(content: Json, others: seq<Json>, extra: map<string, Json>)
    requires "choices" !in extra
    ensures ReplyContent(Obj(extra["choices" := Arr([Obj(map["message" := Obj(map["content" := content])])] + others)]))
      == Some(content)
  {
  }

  /** An error status raises with a message naming both the status code and the response text. */
  lemma {:induction false} HttpErrorNamesStatusAndText(status: nat, text: string, parseJson: string -> Option<Json>)
    requires status != 200
    ensures Classify(Response(status, text), parseJson).Failed?
    ensures Classify(Response(status, text), parseJson).failure.HttpError?
    ensures var m := Classify(Response(status, text), parseJson).failure.message;
      Contains(m, Decimal(status)) && Contains(m, text)
  {
    var m := HttpErrorMessage(status, text);
    ContainsMiddle("AI请求失败: HTTP ", Decimal(status), ", " + text);
    assert m == "AI请求失败: HTTP " + Decimal(status) + (", " + text);
    ContainsMiddle("AI请求失败: HTTP " + Decimal(status) + ", ", text, "");
    assert m == "AI请求失败: HTTP " + Decimal(status) + ", " + text + "";
  }

  /**
   * An answer of status 200 fails as a network error when its text is not JSON (the
   * decode error is caught by the RequestException handler), and as a bad response
   * when the JSON lacks the content field.
   */
  lemma OkStatusFailures(text: string, parseJson: string -> Option<Json>)
    ensures parseJson(text).None? ==> Classify(Response(200, text), parseJson) == Failed(NetworkError)
    ensures parseJson(text).Some? && ReplyContent(parseJson(text).value).None? ==>
      Classify(Response(200, text), parseJson) == Failed(BadResponse)
  {
  }

  /** A summary is produced exactly when there are reports, the server answers 200, and the answer holds a content field. */
  lemma GeneratedIff(a: Assistant, reports: seq<Report>, now: int, lib: DateLib,
                     post: Request -> HttpOutcome, parseJson: string -> Option<Json>)
    ensures WeeklySummary(a, reports, now, lib, post, parseJson).Generated? <==>
      && |reports| > 0
      && var o := post(RequestFor(a, reports, now, lib).value);
         && o.Response? && o.status == 200
         && parseJson(o.text).Some? && ReplyContent(parseJson(o.text).value).Some?
    ensures WeeklySummary(a, reports, now, lib, post, parseJson).Generated? ==>
      WeeklySummary(a, reports, now, lib, post, parseJson).content ==
        ReplyContent(parseJson(post(RequestFor(a, reports, now, lib).value).text).value).value
  {
  }
}
