/** background/background.js: the enhancement request pipeline. A request
    message from the side panel is answered by reading the stored key,
    building a prompt, sending one chat-completion request and classifying
    what comes back. The network is a parameter: `FetchOutcome` is what the
    one `fetch` call produced. */
module Background {
  import opened Wrappers
  import opened JsString
  import opened ChromeStorage
  import ApiUtils

  const API_ENDPOINT := "https://api.deepseek.com/v1/chat/completions"
  const STORAGE_KEY := "deepseek_api_key"
  const MODEL := "deepseek-chat"
  const MAX_TOKENS := 1000

  /** ENHANCEMENT_PROMPTS.grammar and ENHANCEMENT_PROMPTS.summary. */
  const GRAMMAR_PROMPT := "Please correct any grammatical errors in the following text"
    + " while preserving its meaning and original language: "
  const SUMMARY_PROMPT := "Please provide a concise summary of the following text,"
    + " keeping the summary in the same language as the original text: "

  /** The three literal pieces of the custom prompt template. */
  const CUSTOM_HEAD := "Enhance this text by converting its style to "
  const CUSTOM_MIDDLE := " and its tone to "
  const CUSTOM_CLOSING := ". Keep the original meaning intact and ensure the enhanced text"
    + " is in the same language as the original:"

  const MISSING_KEY := "API key not found. Please configure your Deepseek API key"
    + " in extension options."
  const INVALID_FORMAT := "Invalid API response format"
  const STATUS_FAILURE_HEAD := "API request failed with status "
  const ENHANCE_FAILED := "Failed to enhance text." + ApiUtils.TRY_AGAIN_LATER

  /** The body of an HTTP answer as the pipeline sees it. */
  datatype Body =
    | Unreadable(reason: string)
      // reading the body stream rejects with this message
    | NotJson(syntaxError: string)
      // the body is not JSON; parsing it throws a SyntaxError with this message
    | JsonNull(typeError: string)
      // the body is the JSON `null`; reading a property of it throws a TypeError
    | JsonBody(content: Option<string>, providerMessage: Option<string>)
      // parsed JSON: `choices?.[0]?.message?.content` and `error?.message`

  /** What the single `fetch` call produced. */
  datatype FetchOutcome =
    | Rejected(message: string)          // no response: fetch threw (e.g. "Failed to fetch")
    | Answered(status: nat, body: Body)

  /** The POST request `enhanceText` sends. */
  datatype HttpRequest = HttpRequest(
    url: string, httpMethod: string, contentType: string, authorization: string,
    model: string, role: string, content: string, maxTokens: nat)

  /** An `enhance` message from the side panel. */
  datatype Message = Message(
    msgType: string, enhancementType: string, text: string,
    style: Option<string>, tone: Option<string>)

  /** The payload passed to `sendResponse`. */
  datatype Reply = ResultReply(result: string) | ErrorReply(error: string)

  /** What `handleEnhancement` settles to, and the request it sent (if any). */
  datatype Enhancement = Enhancement(outcome: Result<string, string>, sent: Option<HttpRequest>)

  /** What the message listener does: ignore the message, or reply once. */
  datatype ListenerAction = Ignored | Replied(reply: Reply, sent: Option<HttpRequest>)

  /** `response.ok`. */
  predicate IsOkStatus(status: nat) {
    200 <= status <= 299
  }

  /** How an optional value reads inside a template literal or after `+`. */
  function JsText(v: Option<string>): string {
    match v
    case Some(s) => s
    case None => "undefined"
  }

  /** `ENHANCEMENT_PROMPTS[kind]`; any other kind reads as `undefined`. */
  function PromptPrefix(kind: string): (prefix: Option<string>)
    ensures prefix.Some? <==> kind == "grammar" || kind == "summary"
    ensures prefix.Some? ==> EndsWith(prefix.value, ": ")
  {
    if kind == "grammar" then Some(GRAMMAR_PROMPT)
    else if kind == "summary" then Some(SUMMARY_PROMPT)
    else None
  }

  /** The prompt of `enhanceText`: the custom template around style and tone,
      or the fixed prefix of the kind, followed by the text. */
  function BuildPrompt(kind: string, text: string, style: Option<string>, tone: Option<string>): (prompt: string)
    ensures EndsWith(prompt, text)
    ensures kind == "grammar" ==> prompt == GRAMMAR_PROMPT + text
    ensures kind == "summary" ==> prompt == SUMMARY_PROMPT + text
    ensures kind !in {"grammar", "summary", "custom"} ==> prompt == "undefined" + text
    ensures kind == "custom" ==>
      && Includes(prompt, JsText(style))
      && Includes(prompt, JsText(tone))
      && EndsWith(prompt, "\n" + text)
  {
    if kind == "custom" then
      var prompt := CustomPrompt(JsText(style), JsText(tone), text);
      EndsWithAfter("\n", text, text);
      EndsWithTransitive(prompt, "\n" + text, text);
      prompt
    else
      var prompt := JsText(PromptPrefix(kind)) + text;
      assert prompt[|prompt| - |text|..] == text;
      prompt
  }

  /** The custom template: style and tone spliced into the fixed text, then
      a line break and the text to rewrite. */
  function CustomPrompt(style: string, tone: string, text: string): (prompt: string)
    ensures Includes(prompt, style) && Includes(prompt, tone)
    ensures EndsWith(prompt, "\n" + text)
  {
    var tail := "\n" + text;
    var fromTone := tone + (CUSTOM_CLOSING + tail);
    var fromStyle := style + (CUSTOM_MIDDLE + fromTone);
    IncludesPrefix(style, CUSTOM_MIDDLE + fromTone);
    IncludesAfter(CUSTOM_HEAD, fromStyle, style);
    IncludesPrefix(tone, CUSTOM_CLOSING + tail);
    IncludesAfter(CUSTOM_MIDDLE, fromTone, tone);
    IncludesAfter(style, CUSTOM_MIDDLE + fromTone, tone);
    IncludesAfter(CUSTOM_HEAD, fromStyle, tone);
    assert tail[|tail| - |tail|..] == tail;
    EndsWithAfter(CUSTOM_CLOSING, tail, tail);
    EndsWithAfter(tone, CUSTOM_CLOSING + tail, tail);
    EndsWithAfter(CUSTOM_MIDDLE, fromTone, tail);
    EndsWithAfter(style, CUSTOM_MIDDLE + fromTone, tail);
    EndsWithAfter(CUSTOM_HEAD, fromStyle, tail);
    CUSTOM_HEAD + fromStyle
  }

  /** A suffix of a suffix is a suffix. */
  lemma EndsWithTransitive(s: string, t: string, u: string)
    requires EndsWith(s, t) && EndsWith(t, u)
    ensures EndsWith(s, u)
  {
    assert s[|s| - |u|..] == t[|t| - |u|..];
  }

  /** The request `enhanceText` sends for a prompt and a key. */
  function RequestFor(prompt: string, apiKey: string): (req: HttpRequest)
    ensures req.url == API_ENDPOINT && req.httpMethod == "POST"
    ensures req.authorization == "Bearer " + apiKey && req.content == prompt
    ensures req.contentType == "application/json" && req.role == "user"
    ensures req.model == MODEL && req.maxTokens == MAX_TOKENS
  {
    HttpRequest(API_ENDPOINT, "POST", "application/json", "Bearer " + apiKey,
                MODEL, "user", prompt, MAX_TOKENS)
  }

  /** "API request failed with status N". */
  function StatusFailure(status: nat): (msg: string)
    ensures |STATUS_FAILURE_HEAD| < |msg| && msg[..|STATUS_FAILURE_HEAD|] == STATUS_FAILURE_HEAD
    ensures msg[|STATUS_FAILURE_HEAD|..] == NatToString(status)
  {
    var msg := STATUS_FAILURE_HEAD + NatToString(status);
    assert msg[|STATUS_FAILURE_HEAD|..] == NatToString(status);
    msg
  }

  /** What `enhanceText` makes of the fetch outcome: the trimmed content, or
      the message of the error it throws. None of these errors carries a
      `response` field. On a failed status the provider's JSON message is
      thrown inside the inner `try` and replaced by its `catch`, so whatever
      the body holds the error is the status message. */
  function ClassifyResponse(outcome: FetchOutcome): (r: Result<string, string>)
    ensures outcome.Rejected? ==> r == Err(outcome.message)
    ensures outcome.Answered? && outcome.body.Unreadable? ==> r == Err(outcome.body.reason)
    ensures outcome.Answered? && !IsOkStatus(outcome.status) && !outcome.body.Unreadable? ==>
      r == Err(StatusFailure(outcome.status))
    ensures outcome.Answered? && IsOkStatus(outcome.status) && outcome.body.NotJson? ==>
      r == Err(outcome.body.syntaxError)
    ensures outcome.Answered? && IsOkStatus(outcome.status) && outcome.body.JsonNull? ==>
      r == Err(outcome.body.typeError)
    ensures outcome.Answered? && IsOkStatus(outcome.status) && outcome.body.JsonBody? ==>
      r == (if outcome.body.content.None? || outcome.body.content.value == "" then Err(INVALID_FORMAT)
            else Ok(Trim(outcome.body.content.value)))
    ensures r.Ok? ==> NoEdgeSpace(r.value)
  {
    match outcome
    case Rejected(message) => Err(message)
    case Answered(status, body) =>
      if !IsOkStatus(status) then
        match body
        case Unreadable(reason) => Err(reason)
        case _ => Err(StatusFailure(status))
      else
        match body
        case Unreadable(reason) => Err(reason)
        case NotJson(syntaxError) => Err(syntaxError)
        case JsonNull(typeError) => Err(typeError)
        case JsonBody(content, _) =>
          if content.None? || content.value == "" then Err(INVALID_FORMAT)
          else Ok(Trim(content.value))
  }

  /** background.js's own `getApiKey()`: the raw stored value (`undefined`
      when absent, `null` when the read throws); an empty string stays. */
  function ReadStoredKey(store: LocalStorage, fault: bool): (key: Option<string>)
    reads store
    ensures key.Some? <==> !fault && STORAGE_KEY in store.items
    ensures key.Some? ==> key.value == store.items[STORAGE_KEY]
  {
    match store.Get(STORAGE_KEY, fault)
    case ReadFailed => None
    case Read(entry) => entry
  }

  /** `getErrorMessage(error)`: like handleApiError for errors with a status,
      except that other statuses also show the error's message; without a
      status, the network message, the error's own message, or a fallback.
      The result is never empty. */
  function GetErrorMessage(error: ErrorValue): (msg: string)
    ensures msg != ""
    ensures error.response == Some(401) ==> msg == ApiUtils.INVALID_KEY_MESSAGE
    ensures error.response == Some(429) ==> msg == ApiUtils.RATE_LIMIT_MESSAGE
    ensures error.response == Some(500) ==> msg == ApiUtils.SERVER_ERROR_MESSAGE
    ensures error.response.Some? && error.response.value !in {401, 429, 500} ==>
      msg == "API error (" + NatToString(error.response.value) + "): " + error.message
    ensures error.response.None? && Includes(error.message, ApiUtils.FETCH_FAILURE) ==>
      msg == ApiUtils.NETWORK_MESSAGE
    ensures error.response.None? && !Includes(error.message, ApiUtils.FETCH_FAILURE) ==>
      msg == (if error.message != "" then error.message else ENHANCE_FAILED)
  {
    match error.response
    case Some(status) =>
      if status == 401 then ApiUtils.INVALID_KEY_MESSAGE
      else if status == 429 then ApiUtils.RATE_LIMIT_MESSAGE
      else if status == 500 then ApiUtils.SERVER_ERROR_MESSAGE
      else "API error (" + NatToString(status) + "): " + error.message
    case None =>
      if Includes(error.message, ApiUtils.FETCH_FAILURE) then ApiUtils.NETWORK_MESSAGE
      else if error.message != "" then error.message
      else ENHANCE_FAILED
  }

  /** `handleEnhancement(message)`: without a stored key it rejects before any
      request; otherwise it sends one request and resolves to the result or
      rejects with the translated message of what enhanceText threw. */
  function HandleEnhancement(store: LocalStorage, fault: bool, msg: Message, outcome: FetchOutcome): (e: Enhancement)
    reads store
    ensures var key := ReadStoredKey(store, fault);
      if key.None? || key.value == "" then
        e == Enhancement(Err(MISSING_KEY), None)
      else
        && e.sent == Some(RequestFor(BuildPrompt(msg.enhancementType, msg.text, msg.style, msg.tone), key.value))
        && e.sent.value.authorization == "Bearer " + key.value
        && (ClassifyResponse(outcome).Ok? ==> e.outcome == ClassifyResponse(outcome))
        && (ClassifyResponse(outcome).Err? ==>
              e.outcome == Err(GetErrorMessage(ErrorValue(None, ClassifyResponse(outcome).error))))
  {
    var key := ReadStoredKey(store, fault);
    if key.None? || key.value == "" then
      Enhancement(Err(MISSING_KEY), None)
    else
      var prompt := BuildPrompt(msg.enhancementType, msg.text, msg.style, msg.tone);
      var request := RequestFor(prompt, key.value);
      match ClassifyResponse(outcome)
      case Ok(text) => Enhancement(Ok(text), Some(request))
      case Err(message) => Enhancement(Err(GetErrorMessage(ErrorValue(None, message))), Some(request))
  }

  /** The `chrome.runtime.onMessage` listener: an `enhance` message gets
      exactly one reply, `{result}` or `{error}`; any other message none. */
  function OnMessage(store: LocalStorage, fault: bool, msg: Message, outcome: FetchOutcome): (a: ListenerAction)
    reads store
    ensures a.Replied? <==> msg.msgType == "enhance"
    ensures a.Replied? ==>
      var e := HandleEnhancement(store, fault, msg, outcome);
      && a.sent == e.sent
      && a.reply == (if e.outcome.Ok? then ResultReply(e.outcome.value) else ErrorReply(e.outcome.error))
  {
    if msg.msgType == "enhance" then
      var e := HandleEnhancement(store, fault, msg, outcome);
      match e.outcome
      case Ok(text) => Replied(ResultReply(text), e.sent)
      case Err(message) => Replied(ErrorReply(message), e.sent)
    else
      Ignored
  }

  /** The status message mentions no "Failed to fetch", so getErrorMessage
      passes it through unchanged. */
  lemma StatusFailurePassesThrough(status: nat)
    ensures GetErrorMessage(ErrorValue(None, StatusFailure(status))) == StatusFailure(status)
  {
    var m := StatusFailure(status);
    var digits := NatToString(status);
    forall i | 0 <= i < |m| ensures m[i] != 'F' {
      if i < |STATUS_FAILURE_HEAD| {
        assert m[i] == STATUS_FAILURE_HEAD[i];
      } else {
        assert m[i] == digits[i - |STATUS_FAILURE_HEAD|];
      }
    }
    assert ApiUtils.FETCH_FAILURE[0] == 'F';
    AbsentFirstChar(m, ApiUtils.FETCH_FAILURE);
  }

  /** The malformed-response message mentions no "Failed to fetch", so
      getErrorMessage passes it through unchanged. */
  lemma InvalidFormatPassesThrough()
    ensures GetErrorMessage(ErrorValue(None, INVALID_FORMAT)) == INVALID_FORMAT
  {
    forall i | 0 <= i < |INVALID_FORMAT| ensures INVALID_FORMAT[i] != 'F' {
    }
    assert ApiUtils.FETCH_FAILURE[0] == 'F';
    AbsentFirstChar(INVALID_FORMAT, ApiUtils.FETCH_FAILURE);
  }

  /** A key that is stored, readable and non-empty. */
  predicate HasKey(store: LocalStorage, fault: bool)
    reads store
  {
    !fault && STORAGE_KEY in store.items && store.items[STORAGE_KEY] != ""
  }

  /** Any answer with a failed status and a readable body is reported as
      exactly "API request failed with status N": the body, including a JSON
      error message from the provider, never reaches the reply, and 401, 429
      and 500 do not get their dedicated messages. */
  lemma FailedStatusReply(store: LocalStorage, fault: bool, msg: Message, status: nat, body: Body)
    requires msg.msgType == "enhance" && HasKey(store, fault)
    requires !IsOkStatus(status) && !body.Unreadable?
    ensures OnMessage(store, fault, msg, Answered(status, body)).reply == ErrorReply(StatusFailure(status))
  {
    var outcome := Answered(status, body);
    assert ClassifyResponse(outcome) == Err(StatusFailure(status));
    StatusFailurePassesThrough(status);
    assert HandleEnhancement(store, fault, msg, outcome).outcome == Err(StatusFailure(status));
  }

  /** A successful answer without content is reported as
      "Invalid API response format". */
  lemma MissingContentReply(store: LocalStorage, fault: bool, msg: Message, status: nat, content: Option<string>, providerMessage: Option<string>)
    requires msg.msgType == "enhance" && HasKey(store, fault)
    requires IsOkStatus(status) && (content.None? || content.value == "")
    ensures OnMessage(store, fault, msg, Answered(status, JsonBody(content, providerMessage))).reply
      == ErrorReply(INVALID_FORMAT)
  {
    var outcome := Answered(status, JsonBody(content, providerMessage));
    assert ClassifyResponse(outcome) == Err(INVALID_FORMAT);
    InvalidFormatPassesThrough();
    assert HandleEnhancement(store, fault, msg, outcome).outcome == Err(INVALID_FORMAT);
  }

  /** A successful answer with content is replied as the trimmed content,
      without leading or trailing white space. */
  lemma ContentReply(store: LocalStorage, fault: bool, msg: Message, status: nat, content: string, providerMessage: Option<string>)
    requires msg.msgType == "enhance" && HasKey(store, fault)
    requires IsOkStatus(status) && content != ""
    ensures var a := OnMessage(store, fault, msg, Answered(status, JsonBody(Some(content), providerMessage)));
      && a.reply == ResultReply(Trim(content))
      && NoEdgeSpace(a.reply.result)
  {
    var outcome := Answered(status, JsonBody(Some(content), providerMessage));
    assert ClassifyResponse(outcome) == Ok(Trim(content));
    assert HandleEnhancement(store, fault, msg, outcome).outcome == Ok(Trim(content));
  }

  /** Without a usable stored key the reply is the missing-key error and no
      request is sent, whatever the network would have answered. */
  lemma MissingKeyReply(store: LocalStorage, fault: bool, msg: Message, outcome: FetchOutcome)
    requires msg.msgType == "enhance" && !HasKey(store, fault)
    ensures OnMessage(store, fault, msg, outcome) == Replied(ErrorReply(MISSING_KEY), None)
  {
    assert HandleEnhancement(store, fault, msg, outcome) == Enhancement(Err(MISSING_KEY), None);
  }
}
