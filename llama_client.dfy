/**
 * The client for the local inference server (app/llama_client.py): building
 * the chat-completion request for one image, reading the answer, and
 * inferring the server's state from its `/slots` and `/v1/models` endpoints.
 *
 * The HTTP exchanges are parameters: `post(url, payload)` and `get(url)` give
 * what the server answered, so the contracts can say which URL and which
 * payload the client sends.
 */
module LlamaClient {
  import opened Wrappers
  import opened Strings
  import opened Json
  import Base64
  import opened Config

  /** The instruction used when the caller gives no prompt of their own. */
  const DefaultPrompt := "この画像全体を正確にOCRし、コードはそのまま出力し、"
                       + "英語の文章は日本語に正確に翻訳してください。要約は禁止。"

  const ImageUrlPrefix := "data:image/png;base64,"
  const ChatPath := "/v1/chat/completions"
  const SlotsPath := "/slots"
  const ModelsPath := "/v1/models"

  const MaxTokens := 1600
  const Temperature: real := 0.1
  const TopP: real := 0.6
  const MinP: real := 0.05
  const RepetitionPenalty: real := 1.05

  /** The texts `get_status` answers with. */
  const SlotsLoading := "モデル読み込み中"
  const SlotsActive := "実行中"
  const SlotsReady := "準備完了"
  const StatesPrefix := "状態: "
  const ApiReachable := "起動中（API応答あり・モデル読み込み未確認）"
  const ApiWaiting := "起動中（状態確認待ち）"

  /** What `LlamaClient.__init__` copies out of the settings; never updated afterwards. */
  datatype Client = Client(apiBase: string, ctxSize: int, model: string, systemPrompt: string)

  /** What the server answered: no answer at all (an httpx exception), or a status and a body that parsed as JSON or not. */
  datatype HttpReply = NoReply(message: string) | Reply(status: int, body: Option<Json>)

  /** The exceptions `translate_image` lets escape. */
  datatype ClientError =
    | RequestFailed(message: string)   // the POST itself raised
    | HttpStatusError(status: int)     // `raise_for_status` on an answer that is not 2xx
    | BodyNotJson                      // `resp.json()` on a body that is not JSON
    | UnexpectedResponse(body: Json)   // "Unexpected response: …", carrying the whole body
    | ResponseTypeError                // a `TypeError` from subscripting, which the handler does not catch

  /** The chat request body. */
  datatype Part = TextPart(text: string) | ImageUrlPart(url: string)
  datatype Content = TextContent(text: string) | PartsContent(parts: seq<Part>)
  datatype Message = Message(role: string, content: Content)
  datatype ExtraBody = ExtraBody(topP: real, minP: real, repetitionPenalty: real, nCtx: int)
  datatype ChatPayload = ChatPayload(
    model: string,
    messages: seq<Message>,
    maxTokens: int,
    temperature: real,
    stop: Option<string>,
    stream: bool,
    n: int,
    presencePenalty: int,
    frequencyPenalty: int,
    logitBias: map<string, int>,
    extraBody: ExtraBody)

  /** `LlamaClient.__init__`: the base URL loses every trailing `/`, nothing else. */
  function NewClient(s: SettingsValue): (c: Client)
    ensures IsPrefix(c.apiBase, s.apiBase)
    ensures c.apiBase == [] || c.apiBase[|c.apiBase| - 1] != '/'
    ensures forall i :: |c.apiBase| <= i < |s.apiBase| ==> s.apiBase[i] == '/'
    ensures c.ctxSize == s.ctxSize && c.model == s.modelName && c.systemPrompt == s.systemPrompt
  {
    Client(RStrip(s.apiBase, '/'), s.ctxSize, s.modelName, s.systemPrompt)
  }

  /** A base URL that is already normalised is left as it is: normalising twice is normalising once. */
  lemma {:induction false} NormaliseIdempotent(base: string)
    ensures RStrip(RStrip(base, '/'), '/') == RStrip(base, '/')
  {
    var r := RStrip(base, '/');
    if r != [] {
      assert r[|r| - 1] != '/';
    }
  }

  /** `f"{self.api_base}{path}"`. */
  function Endpoint(c: Client, path: string): (url: string)
    ensures IsPrefix(c.apiBase, url) && url[|c.apiBase|..] == path
  {
    c.apiBase + path
  }

  /**
   * Where the normalised base meets an endpoint path there is exactly one
   * `/`, however many trailing slashes the configured base had.
   */
  lemma OneSlashAtJoin(s: SettingsValue, path: string)
    requires IsPrefix("/", path)
    ensures var c := NewClient(s); var url := Endpoint(c, path);
      url[|c.apiBase|] == '/' && (|c.apiBase| == 0 || url[|c.apiBase| - 1] != '/')
  {
  }

  /** `f"{self.api_base}/v1/chat/completions"`. */
  function ChatUrl(c: Client): (url: string)
    ensures IsPrefix(c.apiBase, url) && url[|c.apiBase|..] == "/v1/chat/completions"
  {
    Endpoint(c, ChatPath)
  }

  /** `prompt or default`: the caller's prompt unless it is absent or empty. */
  function PromptText(prompt: Option<string>): (t: string)
    ensures prompt.Some? && prompt.value != "" ==> t == prompt.value
    ensures prompt.None? || prompt.value == "" ==> t == DefaultPrompt
  {
    match prompt
    case Some(p) => if p != "" then p else DefaultPrompt
    case None => DefaultPrompt
  }

  /** The data URI of the PNG: its suffix decodes back to the bytes and has 4·⌈n/3⌉ characters. */
  function ImageUrl(png: seq<Base64.byte>): (url: string)
    ensures IsPrefix(ImageUrlPrefix, url)
    ensures Base64.Decode(url[|ImageUrlPrefix|..]) == Some(png)
    ensures |url| - |ImageUrlPrefix| == 4 * ((|png| + 2) / 3)
  {
    Base64.DecodeEncode(png);
    var url := ImageUrlPrefix + Base64.Encode(png);
    assert url[|ImageUrlPrefix|..] == Base64.Encode(png);
    url
  }

  /**
   * The payload of `translate_image`. The system prompt and the context size
   * are read from the settings at call time, not from the client.
   */
  function BuildPayload(c: Client, s: SettingsValue, png: seq<Base64.byte>, prompt: Option<string>): (p: ChatPayload)
    ensures |p.messages| == 2
    ensures p.messages[0] == Message("system", TextContent(s.systemPrompt))
    ensures p.messages[1] == Message("user", PartsContent([TextPart(PromptText(prompt)), ImageUrlPart(ImageUrl(png))]))
    ensures p.model == c.model && !p.stream && p.n == 1 && p.maxTokens == 1600 && p.stop.None?
    ensures p.extraBody.nCtx == s.ctxSize
  {
    ChatPayload(
      model := c.model,
      messages := [
        Message("system", TextContent(s.systemPrompt)),
        Message("user", PartsContent([TextPart(PromptText(prompt)), ImageUrlPart(ImageUrl(png))]))
      ],
      maxTokens := MaxTokens,
      temperature := Temperature,
      stop := None,
      stream := false,
      n := 1,
      presencePenalty := 0,
      frequencyPenalty := 0,
      logitBias := map[],
      extraBody := ExtraBody(TopP, MinP, RepetitionPenalty, s.ctxSize))
  }

  /** An independent statement of where `choices[0].message.content` is, when it is there. */
  function ContentPath(data: Json): Option<Json> {
    if data.JObject? && "choices" in data.fields then
      var choices := data.fields["choices"];
      if choices.JArray? && |choices.items| > 0 && choices.items[0].JObject? && "message" in choices.items[0].fields then
        var message := choices.items[0].fields["message"];
        if message.JObject? && "content" in message.fields then Some(message.fields["content"]) else None
      else None
    else None
  }

  /** One more subscript in a chain; a failure passes through unchanged. */
  function ThenKey(l: Lookup, key: string): Lookup {
    match l
    case Found(v) => GetKey(v, key)
    case _ => l
  }

  function ThenFirst(l: Lookup): Lookup {
    match l
    case Found(v) => GetFirst(v)
    case _ => l
  }

  /**
   * `data["choices"][0]["message"]["content"]`: the content when the path is
   * there; a `KeyError` or `IndexError` becomes "Unexpected response" with the
   * whole body; any other subscript failure escapes as a `TypeError`. The
   * clauses below go through the subscripts one by one.
   */
  function ExtractContent(data: Json): (r: Result<Json, ClientError>)
    ensures r.Ok? <==> ContentPath(data).Some?
    ensures r.Ok? ==> r.value == ContentPath(data).value
    ensures r.Err? ==> r.error == UnexpectedResponse(data) || r.error == ResponseTypeError
    // `data["choices"]`
    ensures !data.JObject? ==> r == Err(ResponseTypeError)
    ensures data.JObject? && "choices" !in data.fields ==> r == Err(UnexpectedResponse(data))
    // `[0]`: an empty list or string is an `IndexError`, a dict a `KeyError`, a scalar a `TypeError`
    ensures data.JObject? && "choices" in data.fields ==>
      var choices := data.fields["choices"];
      && (choices == JArray([]) || choices == JString("") || choices.JObject? ==> r == Err(UnexpectedResponse(data)))
      && (choices.JNull? || choices.JBool? || choices.JNumber? ==> r == Err(ResponseTypeError))
      && (choices.JString? && choices.s != "" ==> r == Err(ResponseTypeError))
    // `["message"]` and `["content"]` on the first choice
    ensures data.JObject? && "choices" in data.fields && data.fields["choices"].JArray? && |data.fields["choices"].items| > 0 ==>
      var first := data.fields["choices"].items[0];
      && (!first.JObject? ==> r == Err(ResponseTypeError))
      && (first.JObject? && "message" !in first.fields ==> r == Err(UnexpectedResponse(data)))
      && (first.JObject? && "message" in first.fields && !first.fields["message"].JObject? ==> r == Err(ResponseTypeError))
      && (first.JObject? && "message" in first.fields && first.fields["message"].JObject? && "content" !in first.fields["message"].fields
          ==> r == Err(UnexpectedResponse(data)))
  {
    match ThenKey(ThenKey(ThenFirst(GetKey(data, "choices")), "message"), "content")
    case Found(v) => Ok(v)
    case Missing => Err(UnexpectedResponse(data))
    case NotSubscriptable => Err(ResponseTypeError)
  }

  predicate IsSuccess(status: int) {
    200 <= status < 300
  }

  /**
   * `translate_image`: post the payload to the chat URL and read the content
   * out of the answer. Nothing is retried.
   */
  function TranslateImage(c: Client, s: SettingsValue, png: seq<Base64.byte>, prompt: Option<string>,
                          post: (string, ChatPayload) -> HttpReply): (r: Result<Json, ClientError>)
    ensures var reply := post(ChatUrl(c), BuildPayload(c, s, png, prompt));
      r.Ok? <==> reply.Reply? && IsSuccess(reply.status) && reply.body.Some? && ContentPath(reply.body.value).Some?
    ensures var reply := post(ChatUrl(c), BuildPayload(c, s, png, prompt));
      r.Ok? ==> r.value == ContentPath(reply.body.value).value
    // the failures stay apart: the request raised, `raise_for_status`, `resp.json()`, the content path
    ensures var reply := post(ChatUrl(c), BuildPayload(c, s, png, prompt));
      && (reply.NoReply? ==> r == Err(RequestFailed(reply.message)))
      && (reply.Reply? && !IsSuccess(reply.status) ==> r == Err(HttpStatusError(reply.status)))
      && (reply.Reply? && IsSuccess(reply.status) && reply.body.None? ==> r == Err(BodyNotJson))
      && (reply.Reply? && IsSuccess(reply.status) && reply.body.Some? ==> r == ExtractContent(reply.body.value))
  {
    match post(ChatUrl(c), BuildPayload(c, s, png, prompt))
    case NoReply(message) => Err(RequestFailed(message))
    case Reply(status, body) =>
      if !IsSuccess(status) then Err(HttpStatusError(status))
      else
        match body
        case None => Err(BodyNotJson)
        case Some(data) => ExtractContent(data)
  }

  /**
   * `slot.get("state", "?")` for each slot, in order; `None` when the set
   * comprehension raises: a slot that is not an object, or a state that
   * cannot go into a set (a list or an object).
   */
  function SlotStates(slots: seq<Json>): (r: Option<seq<Json>>)
    ensures r.Some? <==> forall j :: 0 <= j < |slots| ==> slots[j].JObject? && Hashable(StateOf(slots[j]))
    ensures r.Some? ==> |r.value| == |slots|
    ensures r.Some? ==> forall j :: 0 <= j < |slots| ==>
      r.value[j] == (if "state" in slots[j].fields then slots[j].fields["state"] else JString("?"))
  {
    if |slots| == 0 then Some([])
    else if !slots[0].JObject? || !Hashable(StateOf(slots[0])) then None
    else
      match SlotStates(slots[1..])
      case None => None
      case Some(rest) => Some([StateOf(slots[0])] + rest)
  }

  function StateOf(slot: Json): Json
    requires slot.JObject?
  {
    if "state" in slot.fields then slot.fields["state"] else JString("?")
  }

  predicate Hashable(v: Json) {
    !v.JArray? && !v.JObject?
  }

  /** The string labels among the states. */
  function StringLabels(states: seq<Json>): (r: seq<string>)
    ensures forall y :: y in r <==> JString(y) in states
  {
    if |states| == 0 then []
    else (if states[0].JString? then [states[0].s] else []) + StringLabels(states[1..])
  }

  /**
   * The branches after the comprehension. `None` means falling through to the
   * models probe: no states at all, or a listing that `sorted`/`join` cannot
   * build because some state is not a string.
   */
  function ClassifyStates(states: seq<Json>): (r: Option<string>)
    ensures |states| == 0 ==> r.None?
    ensures JString("loading") in states ==> r == Some(SlotsLoading)
    ensures JString("loading") !in states && JString("active") in states ==> r == Some(SlotsActive)
    ensures |states| > 0 && (forall j :: 0 <= j < |states| ==> states[j] == JString("idle")) ==> r == Some(SlotsReady)
    ensures r == Some(SlotsReady) ==> |states| > 0 && forall j :: 0 <= j < |states| ==> states[j] == JString("idle")
    ensures && |states| > 0 && JString("loading") !in states && JString("active") !in states
            && (forall j :: 0 <= j < |states| ==> states[j].JString?)
            && (exists j :: 0 <= j < |states| && states[j] != JString("idle"))
            ==> r == Some(StatesPrefix + Join(SortedSet(StringLabels(states)), ", "))
    ensures JString("loading") !in states && JString("active") !in states && (exists j :: 0 <= j < |states| && !states[j].JString?) ==> r.None?
  {
    var labels := StringLabels(states);
    var allStrings := forall j :: 0 <= j < |states| ==> states[j].JString?;
    LabelsAllIdle(states);
    if |states| == 0 then None
    else if "loading" in labels then Some(SlotsLoading)
    else if "active" in labels then Some(SlotsActive)
    else if allStrings && (forall y :: y in labels ==> y == "idle") && "idle" in labels then
      Some(SlotsReady)
    else if !allStrings then None
    else
      var listing := StatesPrefix + Join(SortedSet(labels), ", ");
      assert listing[0] != SlotsReady[0];
      Some(listing)
  }

  /** For string states, `states == {"idle"}` holds exactly when there are states and every one is `"idle"`. */
  lemma LabelsAllIdle(states: seq<Json>)
    ensures var labels := StringLabels(states);
      (forall j :: 0 <= j < |states| ==> states[j].JString?) ==>
        ((|states| > 0 && (forall y :: y in labels ==> y == "idle") && "idle" in labels)
         <==> (|states| > 0 && forall j :: 0 <= j < |states| ==> states[j] == JString("idle")))
  {
    var labels := StringLabels(states);
    if (forall j :: 0 <= j < |states| ==> states[j].JString?) && |states| > 0 {
      if forall y :: y in labels ==> y == "idle" {
        forall j | 0 <= j < |states|
          ensures states[j] == JString("idle")
        {
          assert JString(states[j].s) in states;
          assert states[j].s in labels;
        }
      }
      if forall j :: 0 <= j < |states| ==> states[j] == JString("idle") {
        assert JString("idle") in states;
        forall y | y in labels
          ensures y == "idle"
        {
          assert JString(y) in states;
        }
      }
    }
  }

  /** The `/slots` body: a dict whose `slots` (default `[]`) is a list of slot objects. */
  function ClassifySlotsBody(data: Json): (r: Option<string>)
    ensures !data.JObject? ==> r.None?
    ensures data.JObject? && "slots" !in data.fields ==> r.None?
    ensures data.JObject? && "slots" in data.fields && !data.fields["slots"].JArray? ==> r.None?
    ensures data.JObject? && "slots" in data.fields && data.fields["slots"] == JArray([]) ==> r.None?
    ensures data.JObject? && "slots" in data.fields && data.fields["slots"].JArray? ==>
      var states := SlotStates(data.fields["slots"].items);
      && (states.None? ==> r.None?)
      && (states.Some? ==> r == ClassifyStates(states.value))
  {
    if !data.JObject? then None
    else
      var slots := if "slots" in data.fields then data.fields["slots"] else JArray([]);
      if !slots.JArray? then None
      else
        match SlotStates(slots.items)
        case None => None
        case Some(states) => ClassifyStates(states)
  }

  /** The first probe: only a 2xx answer with a JSON body can give a status. */
  function SlotsSignal(reply: HttpReply): (r: Option<string>)
    ensures r.Some? ==> reply.Reply? && IsSuccess(reply.status) && reply.body.Some?
    ensures reply.Reply? && IsSuccess(reply.status) && reply.body.Some? ==> r == ClassifySlotsBody(reply.body.value)
  {
    match reply
    case NoReply(_) => None
    case Reply(status, body) =>
      if !IsSuccess(status) then None
      else
        match body
        case None => None
        case Some(data) => ClassifySlotsBody(data)
  }

  /** The fallback probe: any answer at all, 200 or not, means the API is reachable. */
  function ModelsStatus(reply: HttpReply): (r: string)
    ensures reply.NoReply? <==> r == ApiWaiting
    ensures reply.Reply? <==> r == ApiReachable
  {
    match reply
    case NoReply(_) => ApiWaiting
    case Reply(status, _) => if status == 200 then ApiReachable else ApiReachable
  }

  /** `get_status`: the slots probe when it gives a status, the models probe otherwise. It never fails. */
  function GetStatus(c: Client, get: string -> HttpReply): (r: string)
    ensures SlotsSignal(get(Endpoint(c, SlotsPath))).Some? ==> r == SlotsSignal(get(Endpoint(c, SlotsPath))).value
    ensures SlotsSignal(get(Endpoint(c, SlotsPath))).None? ==> r == ModelsStatus(get(Endpoint(c, ModelsPath)))
  {
    match SlotsSignal(get(Endpoint(c, SlotsPath)))
    case Some(status) => status
    case None => ModelsStatus(get(Endpoint(c, ModelsPath)))
  }

  /** The status is always one of the six forms, and it is never empty. */
  lemma GetStatusVocabulary(c: Client, get: string -> HttpReply)
    ensures var r := GetStatus(c, get);
      r in {SlotsLoading, SlotsActive, SlotsReady, ApiReachable, ApiWaiting} || IsPrefix(StatesPrefix, r)
    ensures GetStatus(c, get) != ""
  {
    var reply := get(Endpoint(c, SlotsPath));
    if reply.Reply? && IsSuccess(reply.status) && reply.body.Some? {
      var data := reply.body.value;
      if data.JObject? {
        var slots := if "slots" in data.fields then data.fields["slots"] else JArray([]);
        if slots.JArray? && SlotStates(slots.items).Some? {
          var states := SlotStates(slots.items).value;
          var r := ClassifyStates(states);
          if r.Some? && r.value != SlotsLoading && r.value != SlotsActive && r.value != SlotsReady {
            var listing := Join(SortedSet(StringLabels(states)), ", ");
            assert r.value == StatesPrefix + listing;
            assert (StatesPrefix + listing)[..|StatesPrefix|] == StatesPrefix;
          }
        }
      }
    }
  }

  /** A 2xx `/slots` answer in which some slot is loading gives the loading text, whatever the other slots say. */
  lemma GetStatusLoadingSlot(c: Client, get: string -> HttpReply, status: int, fields: map<string, Json>,
                             items: seq<Json>, k: int)
    requires get(Endpoint(c, SlotsPath)) == Reply(status, Some(JObject(fields))) && IsSuccess(status)
    requires "slots" in fields && fields["slots"] == JArray(items)
    requires forall j :: 0 <= j < |items| ==> items[j].JObject? && Hashable(StateOf(items[j]))
    requires 0 <= k < |items| && "state" in items[k].fields && items[k].fields["state"] == JString("loading")
    ensures GetStatus(c, get) == SlotsLoading
  {
    var states := SlotStates(items).value;
    assert states[k] == JString("loading");
  }

  /** A 2xx `/slots` answer with no slots, or with an empty list, leaves the decision to the models probe. */
  lemma GetStatusEmptySlots(c: Client, get: string -> HttpReply, status: int, fields: map<string, Json>)
    requires get(Endpoint(c, SlotsPath)) == Reply(status, Some(JObject(fields))) && IsSuccess(status)
    requires "slots" !in fields || fields["slots"] == JArray([])
    ensures GetStatus(c, get) == ModelsStatus(get(Endpoint(c, ModelsPath)))
  {
  }

  /** Slots that are idle and busy are listed, sorted: `状態: busy, idle`. */
  lemma IdleAndBusyListed(states: seq<Json>)
    requires states == [JString("idle"), JString("busy")]
    ensures ClassifyStates(states) == Some("状態: busy, idle")
  {
    var labels := StringLabels(states);
    IdleAndBusyPremises(states);
    IdleAndBusyLabels(states);
    IdleAndBusySorted(labels);
    JoinTwo("busy", "idle", ", ");
    var listing := Join(SortedSet(labels), ", ");
    assert listing == "busy, idle";
    assert ClassifyStates(states) == Some(StatesPrefix + listing);
    assert StatesPrefix + "busy, idle" == "状態: busy, idle";
  }

  lemma IdleAndBusyPremises(states: seq<Json>)
    requires states == [JString("idle"), JString("busy")]
    ensures |states| > 0 && JString("loading") !in states && JString("active") !in states
    ensures forall j :: 0 <= j < |states| ==> states[j].JString?
    ensures exists j :: 0 <= j < |states| && states[j] != JString("idle")
  {
    assert states[1] != JString("idle");
  }

  lemma IdleAndBusyLabels(states: seq<Json>)
    requires states == [JString("idle"), JString("busy")]
    ensures StringLabels(states) == ["idle", "busy"]
  {
    var rest := states[1..];
    assert rest == [JString("busy")] && rest[1..] == [];
    assert StringLabels(rest[1..]) == [];
    assert StringLabels(rest) == ["busy"];
    assert StringLabels(states) == ["idle"] + StringLabels(rest);
  }

  lemma IdleAndBusySorted(labels: seq<string>)
    requires labels == ["idle", "busy"]
    ensures SortedSet(labels) == ["busy", "idle"]
  {
    var sorted := ["busy", "idle"];
    assert "busy"[0] < "idle"[0];
    assert StrictlySorted(sorted);
    SortedByElements(SortedSet(labels), sorted);
  }
}
