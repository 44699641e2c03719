/**
 * The two API endpoints of app/main.py that hold decision logic:
 * `/api/llama-status` (classify the log tail, merge it with the live probe)
 * and `/api/translate` (context-size defaulting, the write into the shared
 * settings, the 400/500 error mapping and the result shape).
 */
module MainApp {
  import opened Wrappers
  import opened Strings
  import opened Json
  import opened Config
  import opened LlamaClient
  import Base64

  const TailLength := 400

  /** The texts the log classification answers with. */
  const LogError := "エラー検出 (ログ)"
  const LogLoading := "モデル読み込み中 (ログより)"
  const LogReady := "準備完了 (ログより)"
  const LogStarting := "起動中（モデル読み込み未確認）(ログより)"

  /** What opening `llama-server.log` gives: no file, another `OSError`, or its lines as `readlines` returns them. */
  datatype LogFile = LogMissing | LogUnreadable | LogLines(lines: seq<string>)

  /** `lines[-400:]`. */
  function Tail(lines: seq<string>): (t: seq<string>)
    ensures |lines| <= TailLength ==> t == lines
    ensures |lines| > TailLength ==> |t| == TailLength
    ensures t == lines[|lines| - |t|..]
  {
    if |lines| <= TailLength then lines else lines[|lines| - TailLength..]
  }

  /** `"\n".join(lines[-400:]).lower()`. */
  function LogText(lines: seq<string>): string {
    Lower(Join(Tail(lines), "\n"))
  }

  /** The if/elif chain over the four flags. */
  function ClassifyLogText(text: string): Option<string> {
    var hasLoading := Contains(text, "loading model");
    var hasIdle := Contains(text, "idle");
    var hasListening := Contains(text, "listening") || Contains(text, "http server");
    var hasError := Contains(text, "error");
    if hasError then Some(LogError)
    else if hasLoading && !hasIdle then Some(LogLoading)
    else if hasIdle then Some(LogReady)
    else if hasListening then Some(LogStarting)
    else None
  }

  /** The log signal of a readable log file. */
  function LogStatus(lines: seq<string>): Option<string> {
    ClassifyLogText(LogText(lines))
  }

  /** Some line of the tail, lower-cased, contains the keyword. */
  predicate AnyLine(tail: seq<string>, keyword: string) {
    exists j :: 0 <= j < |tail| && Contains(Lower(tail[j]), keyword)
  }

  /** The ordered rule table: the text of the first rule whose condition holds. */
  function FirstMatch(rules: seq<(bool, string)>): Option<string> {
    if |rules| == 0 then None
    else if rules[0].0 then Some(rules[0].1)
    else FirstMatch(rules[1..])
  }

  /** The log rules, top-down: error, loading without idle, idle, listening. */
  function LogRules(tail: seq<string>): seq<(bool, string)> {
    [ (AnyLine(tail, "error"), LogError),
      (AnyLine(tail, "loading model") && !AnyLine(tail, "idle"), LogLoading),
      (AnyLine(tail, "idle"), LogReady),
      (AnyLine(tail, "listening") || AnyLine(tail, "http server"), LogStarting) ]
  }

  lemma FirstMatchOfFour(a: (bool, string), b: (bool, string), c: (bool, string), d: (bool, string))
    ensures FirstMatch([a, b, c, d]) ==
      if a.0 then Some(a.1) else if b.0 then Some(b.1) else if c.0 then Some(c.1) else if d.0 then Some(d.1) else None
  {
    assert [d][1..] == [];
    assert FirstMatch([d]) == if d.0 then Some(d.1) else None;
    assert [c, d][1..] == [d];
    assert FirstMatch([c, d]) == if c.0 then Some(c.1) else FirstMatch([d]);
    assert [b, c, d][1..] == [c, d];
    assert FirstMatch([b, c, d]) == if b.0 then Some(b.1) else FirstMatch([c, d]);
    assert [a, b, c, d][1..] == [b, c, d];
  }

  predicate IsLogKeyword(k: string) {
    k in {"error", "loading model", "idle", "listening", "http server"}
  }

  /** A keyword occurs in the joined, lower-cased text exactly when it occurs in one lower-cased line. */
  lemma KeywordInTextIffInLine(lines: seq<string>, keyword: string)
    requires IsLogKeyword(keyword)
    ensures Contains(LogText(lines), keyword) <==> AnyLine(Tail(lines), keyword)
  {
    var lowered := LowerAll(Tail(lines));
    LogTextIsLoweredLines(lines);
    ContainsInJoin(lowered, '\n', keyword);
    AnyLoweredLine(Tail(lines), keyword);
  }

  lemma LogTextIsLoweredLines(lines: seq<string>)
    ensures LogText(lines) == Join(LowerAll(Tail(lines)), "\n")
  {
    LowerJoin(Tail(lines), "\n");
    assert Lower("\n") == "\n";
  }

  lemma AnyLoweredLine(tail: seq<string>, keyword: string)
    ensures (exists j :: 0 <= j < |LowerAll(tail)| && Contains(LowerAll(tail)[j], keyword)) <==> AnyLine(tail, keyword)
  {
    assert forall j :: 0 <= j < |tail| ==> LowerAll(tail)[j] == Lower(tail[j]);
  }

  /** The log signal is the first matching rule, each keyword tested line by line. */
  lemma LogStatusByRules(lines: seq<string>)
    ensures LogStatus(lines) == FirstMatch(LogRules(Tail(lines)))
  {
    KeywordInTextIffInLine(lines, "error");
    KeywordInTextIffInLine(lines, "loading model");
    KeywordInTextIffInLine(lines, "idle");
    KeywordInTextIffInLine(lines, "listening");
    KeywordInTextIffInLine(lines, "http server");
    var tail := Tail(lines);
    FirstMatchOfFour(
      (AnyLine(tail, "error"), LogError),
      (AnyLine(tail, "loading model") && !AnyLine(tail, "idle"), LogLoading),
      (AnyLine(tail, "idle"), LogReady),
      (AnyLine(tail, "listening") || AnyLine(tail, "http server"), LogStarting));
  }

  /** The rule table read out in order. */
  lemma LogStatusChain(lines: seq<string>)
    ensures var tail := Tail(lines);
      LogStatus(lines) ==
        if AnyLine(tail, "error") then Some(LogError)
        else if AnyLine(tail, "loading model") && !AnyLine(tail, "idle") then Some(LogLoading)
        else if AnyLine(tail, "idle") then Some(LogReady)
        else if AnyLine(tail, "listening") || AnyLine(tail, "http server") then Some(LogStarting)
        else None
  {
    LogStatusByRules(lines);
    var tail := Tail(lines);
    FirstMatchOfFour(
      (AnyLine(tail, "error"), LogError),
      (AnyLine(tail, "loading model") && !AnyLine(tail, "idle"), LogLoading),
      (AnyLine(tail, "idle"), LogReady),
      (AnyLine(tail, "listening") || AnyLine(tail, "http server"), LogStarting));
  }

  /** An "error" anywhere in the tail wins over every other keyword. */
  lemma ErrorWins(lines: seq<string>)
    requires AnyLine(Tail(lines), "error")
    ensures LogStatus(lines) == Some(LogError)
  {
    LogStatusChain(lines);
  }

  /** "loading model" without "idle" (and without "error") is the loading text. */
  lemma LoadingWithoutIdle(lines: seq<string>)
    requires !AnyLine(Tail(lines), "error")
    requires AnyLine(Tail(lines), "loading model") && !AnyLine(Tail(lines), "idle")
    ensures LogStatus(lines) == Some(LogLoading)
  {
    LogStatusChain(lines);
  }

  /** "idle" without "error" is the ready text, whether or not "loading model" is there too. */
  lemma IdleMeansReady(lines: seq<string>)
    requires !AnyLine(Tail(lines), "error") && AnyLine(Tail(lines), "idle")
    ensures LogStatus(lines) == Some(LogReady)
  {
    LogStatusChain(lines);
  }

  /** The starting text comes only from "listening" or "http server", and only when no earlier rule fired. */
  lemma StartingOnlyAsLastRule(lines: seq<string>)
    ensures LogStatus(lines) == Some(LogStarting) <==>
      && !AnyLine(Tail(lines), "error")
      && !AnyLine(Tail(lines), "loading model") && !AnyLine(Tail(lines), "idle")
      && (AnyLine(Tail(lines), "listening") || AnyLine(Tail(lines), "http server"))
  {
    LogStatusChain(lines);
  }

  /** No keyword in the tail, no log signal. */
  lemma NoKeywordNoSignal(lines: seq<string>)
    ensures LogStatus(lines).None? <==>
      forall k :: IsLogKeyword(k) ==> !AnyLine(Tail(lines), k)
  {
    LogStatusChain(lines);
    assert IsLogKeyword("error") && IsLogKeyword("loading model") && IsLogKeyword("idle");
    assert IsLogKeyword("listening") && IsLogKeyword("http server");
  }

  /** Lines before the last 400 have no effect on the classification. */
  lemma OnlyTailMatters(earlier: seq<string>, recent: seq<string>)
    requires |recent| >= TailLength
    ensures LogStatus(earlier + recent) == LogStatus(recent)
  {
    var all := earlier + recent;
    assert Tail(all) == all[|all| - TailLength..];
    assert all[|all| - TailLength..] == recent[|recent| - TailLength..];
  }

  /** A Python string's truth value. */
  predicate Truthy(o: Option<string>) {
    o.Some? && o.value != ""
  }

  /**
   * The merge at the end of `llama_status`. Neither signal is ever hidden:
   * the result starts with the log text when there is one, and always
   * contains the probe text.
   */
  function MergeStatus(log: Option<string>, probe: string): (r: string)
    ensures Truthy(log) ==> IsPrefix(log.value, r)
    ensures !Truthy(log) ==> r == probe
    ensures Contains(r, probe)
  {
    if Truthy(log) && probe != "" then
      if log.value != probe then
        ContainsItself(probe);
        ContainsInRight(log.value + " / ", probe, probe);
        log.value + " / " + probe
      else
        ContainsItself(probe);
        log.value
    else if Truthy(log) then
      ContainsAt(log.value, probe, 0);
      log.value
    else
      ContainsItself(probe);
      probe
  }

  lemma MergeCases(log: string, probe: string)
    requires log != "" && probe != ""
    ensures log != probe ==> MergeStatus(Some(log), probe) == log + " / " + probe
    ensures MergeStatus(Some(log), log) == log
    ensures MergeStatus(None, probe) == probe
  {
  }

  datatype StatusResponse = StatusOk(status: string) | StatusInternalError

  /**
   * `GET /api/llama-status`. A missing log file gives no log signal; any
   * other failure to open it escapes the handler, which then answers 500.
   */
  function LlamaStatus(log: LogFile, s: SettingsValue, get: string -> HttpReply): (r: StatusResponse)
    ensures log.LogUnreadable? <==> r.StatusInternalError?
    ensures log.LogMissing? ==> r == StatusOk(GetStatus(NewClient(s), get))
    ensures log.LogLines? ==> r == StatusOk(MergeStatus(LogStatus(log.lines), GetStatus(NewClient(s), get)))
  {
    match log
    case LogUnreadable => StatusInternalError
    case LogMissing => StatusOk(MergeStatus(None, GetStatus(NewClient(s), get)))
    case LogLines(lines) => StatusOk(MergeStatus(LogStatus(lines), GetStatus(NewClient(s), get)))
  }

  /** The outcome of reading the upload and re-encoding it as PNG (PIL): the bytes, or the exception text. */
  datatype ImageRead = ImageOk(png: seq<Base64.byte>) | ImageFailed(reason: string)

  /** `detail` of an `HTTPException`: a text, or `str(exc)` of a client exception. */
  datatype Detail = DetailText(text: string) | DetailError(error: ClientError)

  datatype TranslateResponse = Translated(markdown: Json, ctx: int) | HttpError(status: int, detail: Detail)

  const ImageErrorPrefix := "Failed to read image: "

  /** `ctx or settings.ctx_size`: a missing or zero `ctx` falls back to the current setting. */
  function TargetCtx(ctx: Option<int>, current: int): (t: int)
    ensures ctx.Some? && ctx.value != 0 ==> t == ctx.value
    ensures ctx.None? || ctx.value == 0 ==> t == current
  {
    match ctx
    case Some(n) => if n != 0 then n else current
    case None => current
  }

  /** `prompt or None`: the empty form field is passed on as no prompt. */
  function PromptArg(prompt: string): (p: Option<string>)
    ensures p.None? <==> prompt == ""
    ensures p.Some? ==> p.value == prompt
  {
    if prompt == "" then None else Some(prompt)
  }

  /** The settings after a request: `ctx_size` is written once the image has been read. */
  function SettingsAfter(s: SettingsValue, image: ImageRead, ctx: Option<int>): SettingsValue {
    if image.ImageOk? then s.(ctxSize := TargetCtx(ctx, s.ctxSize)) else s
  }

  /** The response of `POST /api/translate`, given the settings as they were when the request came in. */
  function TranslateResponseFor(s: SettingsValue, image: ImageRead, prompt: string, ctx: Option<int>,
                                post: (string, ChatPayload) -> HttpReply): TranslateResponse
  {
    match image
    case ImageFailed(reason) => HttpError(400, DetailText(ImageErrorPrefix + reason))
    case ImageOk(png) =>
      match TranslateImage(NewClient(s), SettingsAfter(s, image, ctx), png, PromptArg(prompt), post)
      case Err(e) => HttpError(500, DetailError(e))
      case Ok(markdown) => Translated(markdown, TargetCtx(ctx, s.ctxSize))
  }

  /**
   * `translate`: the client is created from the settings before `ctx_size`
   * is overwritten, and the payload is built from them after. Only
   * `ctx_size` changes, and only once the image has been read.
   */
  method Translate(settings: Settings, image: ImageRead, prompt: string, ctx: Option<int>,
                   post: (string, ChatPayload) -> HttpReply) returns (resp: TranslateResponse)
    modifies settings`ctxSize
    ensures resp == TranslateResponseFor(old(settings.Value()), image, prompt, ctx, post)
    ensures settings.Value() == SettingsAfter(old(settings.Value()), image, ctx)
  {
    var targetCtx := TargetCtx(ctx, settings.ctxSize);
    match image
    case ImageFailed(reason) =>
      resp := HttpError(400, DetailText(ImageErrorPrefix + reason));
    case ImageOk(png) =>
      var client := NewClient(settings.Value());
      settings.SetCtxSize(targetCtx);
      var result := TranslateImage(client, settings.Value(), png, PromptArg(prompt), post);
      match result
      case Err(e) =>
        resp := HttpError(500, DetailError(e));
      case Ok(markdown) =>
        resp := Translated(markdown, targetCtx);
  }

  /** The request `translate` sends for a readable image. */
  function TranslateRequest(s: SettingsValue, png: seq<Base64.byte>, prompt: string, ctx: Option<int>): (string, ChatPayload) {
    var image := ImageOk(png);
    (ChatUrl(NewClient(s)), BuildPayload(NewClient(s), SettingsAfter(s, image, ctx), png, PromptArg(prompt)))
  }

  /**
   * What `translate` sends and answers: the payload carries the target
   * context size (not the client's copy of the old one), an empty prompt
   * becomes the default instruction, and the answer reports the same context
   * size it sent.
   */
  lemma TranslateSendsTargetCtx(s: SettingsValue, png: seq<Base64.byte>, prompt: string, ctx: Option<int>,
                                post: (string, ChatPayload) -> HttpReply)
    ensures var (url, payload) := TranslateRequest(s, png, prompt, ctx);
      && url == RStrip(s.apiBase, '/') + "/v1/chat/completions"
      && payload.extraBody.nCtx == TargetCtx(ctx, s.ctxSize)
      && payload.messages[1].content.parts[0] == TextPart(if prompt == "" then DefaultPrompt else prompt)
    ensures var r := TranslateResponseFor(s, ImageOk(png), prompt, ctx, post);
      var (url, payload) := TranslateRequest(s, png, prompt, ctx);
      var reply := post(url, payload);
      && (r.Translated? <==> reply.Reply? && IsSuccess(reply.status) && reply.body.Some? && ContentPath(reply.body.value).Some?)
      && (r.Translated? ==> r.markdown == ContentPath(reply.body.value).value && r.ctx == TargetCtx(ctx, s.ctxSize))
      && (r.HttpError? ==> r.status == 500)
      && (r.HttpError? ==> r.detail == DetailError(TranslateImage(NewClient(s), SettingsAfter(s, ImageOk(png), ctx), png, PromptArg(prompt), post).error))
  {
  }

  /** A JSON object answer without the `choices` key. */
  predicate MissingChoices(data: Json) {
    data.JObject? && "choices" !in data.fields
  }

  /**
   * Each way the llama request can fail is a 500 whose detail is that
   * client error: the request raising, an answer that is not 2xx, and a 2xx
   * JSON body without the content path, which carries the whole body.
   */
  lemma TranslateFailureDetail(s: SettingsValue, png: seq<Base64.byte>, prompt: string, ctx: Option<int>,
                               post: (string, ChatPayload) -> HttpReply)
    ensures var (url, payload) := TranslateRequest(s, png, prompt, ctx);
      var reply := post(url, payload);
      var r := TranslateResponseFor(s, ImageOk(png), prompt, ctx, post);
      && (reply.NoReply? ==> r == HttpError(500, DetailError(RequestFailed(reply.message))))
      && (reply.Reply? && !IsSuccess(reply.status) ==> r == HttpError(500, DetailError(HttpStatusError(reply.status))))
      && (reply.Reply? && IsSuccess(reply.status) && reply.body.None? ==> r == HttpError(500, DetailError(BodyNotJson)))
      && (reply.Reply? && IsSuccess(reply.status) && reply.body.Some? && MissingChoices(reply.body.value) ==>
            r == HttpError(500, DetailError(UnexpectedResponse(reply.body.value))))
  {
  }

  /** A failed image read is a 400 whose detail starts "Failed to read image:", and the settings are untouched. */
  lemma ImageFailureIs400(s: SettingsValue, reason: string, prompt: string, ctx: Option<int>,
                          post: (string, ChatPayload) -> HttpReply)
    ensures var r := TranslateResponseFor(s, ImageFailed(reason), prompt, ctx, post);
      r.HttpError? && r.status == 400 && r.detail.DetailText? && IsPrefix("Failed to read image:", r.detail.text)
    ensures SettingsAfter(s, ImageFailed(reason), ctx) == s
  {
  }

  /**
   * The context size written by one request becomes the fallback of the
   * next: a request without `ctx` after one with `ctx = k` reports `k`, not
   * the configured size.
   */
  lemma ContextOverridePersists(s: SettingsValue, png: seq<Base64.byte>, k: int)
    requires k != 0
    ensures var s' := SettingsAfter(s, ImageOk(png), Some(k));
      s'.ctxSize == k && TargetCtx(None, s'.ctxSize) == k && TargetCtx(Some(0), s'.ctxSize) == k
  {
  }
}
