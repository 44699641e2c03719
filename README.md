# Screenshot translator: a Dafny model of its decision logic

The screenshot translator is a small web application. The browser page takes a pasted
or dropped image and posts it to a FastAPI server. The server normalises the image to
PNG and sends it, base64-encoded in a data URI, to a local llama.cpp server through its
OpenAI-compatible chat-completion endpoint. It then returns the Markdown the model
answered. A second endpoint reports whether the llama server is ready. It reads the
tail of the server's log file and probes the `/slots` and `/v1/models` endpoints.

This project models the decision logic of that application and proves its properties:

- **Status inference.** Three parts:
  - the keyword classifier over the lower-cased last 400 log lines: error, then loading
    without idle, then idle, then listening;
  - the classifier over the `/slots` states: loading, then active, then exactly idle,
    then the sorted listing, falling back to the `/v1/models` probe;
  - the rule that merges the two signals.
- **Request construction and response handling.** This covers:
  - base-URL normalisation and the endpoint URLs;
  - the prompt default;
  - the data URI, with base64 per section 4 of RFC 4648 and its decoder;
  - the fixed shape of the chat payload;
  - `choices[0].message.content` extraction with Python's subscript errors;
  - `ctx` defaulting with Python's `or`;
  - the in-place write of `ctx_size` into the shared settings;
  - the 400/500 mapping.
- **The browser page.** This covers:
  - `escapeHtml`, with its per-character reference definition and a decoder;
  - the loading hint that `setStatus` appends;
  - the `<p>` wrapper of `renderMarkdown`;
  - the page state: the poll timer installed once, and the submit button disabled
    while exactly one request is in flight.

Modules:

| file | module | models |
|---|---|---|
| wrappers.dfy | `Wrappers` | `Option`, `Result` |
| strings.dfy | `Strings` | substring search, `str.join`, ASCII `lower`, `rstrip`, lexicographic order and `sorted` of a set, decimal rendering |
| json.dfy | `Json` | a decoded JSON value and Python's `d[key]` / `x[0]` outcomes (`KeyError`/`IndexError` versus `TypeError`) |
| base64.dfy | `Base64` | encoding and decoding per section 4 of RFC 4648 |
| config.dfy | `Config` | the shared `Settings` object (a class: `ctx_size` is written in place) |
| llama_client.dfy | `LlamaClient` | app/llama_client.py |
| main.dfy | `MainApp` | the two endpoints of app/main.py |
| frontend.dfy | `Frontend` | app/static/main.js |

How the outside world is modelled:

- **HTTP.** Every exchange with the llama server is a function parameter.
  `get(url)` and `post(url, payload)` return a `HttpReply`: either no reply, when httpx
  raises, or a status with the body if it parsed as JSON. The contracts can therefore
  say which URL and which payload are sent.
- **The log file** is an input `LogFile`: missing, unreadable for another reason, or
  its lines.
- **The PIL normalisation** is an input `ImageRead`: the PNG bytes, or the text of the
  exception.
- **The browser's fetch results** are inputs `PollReply` and `SendReply`.
- **The regular-expression passes of `renderMarkdown`** are a parameter
  `passes: string -> string`.

## Model

| member | source | states |
|---|---|---|
| Strings.RStrip | app/llama_client.py:11 | the result is a prefix of the input, does not end with the stripped character, and only that character was removed |
| Strings.LowerJoin | app/main.py:72 | lower-casing the joined lines equals joining the lower-cased lines |
| Strings.ContainsInJoin | app/main.py:72-76 | a keyword without a newline occurs in the newline-joined text exactly when it occurs in one of the lines |
| Strings.SortedSet | app/llama_client.py:78 | `sorted` of a set is strictly ascending and holds exactly the set's elements |
| Strings.SortedByElements | app/llama_client.py:78 | two strictly ascending listings of the same elements are equal, so the listing is determined by the set |
| Strings.LessIrreflexive | app/llama_client.py:78 | the string order used by `sorted` is irreflexive |
| Strings.LessTransitive | app/llama_client.py:78 | the string order used by `sorted` is transitive |
| Strings.LessTotal | app/llama_client.py:78 | any two different strings are ordered one way or the other |
| Strings.NatToDecimal | app/static/main.js:106 | the rendering of a number is non-empty, all decimal digits, starts with `0` only for 0, and reads back (by `DecimalValue`) as the number |
| Json.GetKey | app/llama_client.py:59 | on a dict, the value of a present key and a `KeyError` for a missing one; anything else is not subscriptable by a string |
| Json.GetFirst | app/llama_client.py:59 | `x[0]`: the first item of a list, the one-character string of a string, an `IndexError` when either is empty, a `KeyError` on a dict, otherwise not subscriptable |
| Base64.EncodeSextet | app/llama_client.py:23 | the alphabet character of a 6-bit value decodes back to that value and is never the pad |
| Base64.EncodeQuantum | app/llama_client.py:23 | every group of one to three bytes becomes four characters |
| Base64.Encode | app/llama_client.py:23 | the encoding has 4·⌈n/3⌉ characters |
| Base64.QuantumRoundTrip | app/llama_client.py:23 | decoding one encoded quantum gives back its bytes |
| Base64.DecodeEncode | app/llama_client.py:23 | decoding an encoding gives back exactly the input bytes |
| Base64.EncodeAlphabet | app/llama_client.py:23 | every character of an encoding is from the RFC 4648 alphabet or is `=` |
| Config.Settings.constructor | app/config.py:11-22 | each field is the environment value when the variable is set and its default otherwise; the system prompt is the fixed instruction |
| Config.Settings.SetCtxSize | app/main.py:48 | `ctx_size` takes the new value and no other settings field changes |
| LlamaClient.NewClient | app/llama_client.py:9-14 | the base URL loses exactly its trailing slashes; context size, model and system prompt are copied |
| LlamaClient.NormaliseIdempotent | app/llama_client.py:11 | normalising an already normalised base URL changes nothing |
| LlamaClient.Endpoint | app/llama_client.py:54 | an endpoint URL is the base URL followed by the path |
| LlamaClient.ChatUrl | app/llama_client.py:54 | the chat URL is the normalised base followed by `/v1/chat/completions` |
| LlamaClient.OneSlashAtJoin | app/llama_client.py:54 | exactly one `/` separates the normalised base and the path, however many trailing slashes the configured base had |
| LlamaClient.PromptText | app/llama_client.py:19-22 | the caller's prompt when it is present and non-empty, the default instruction otherwise |
| LlamaClient.ImageUrl | app/llama_client.py:23-24 | the data URI starts with `data:image/png;base64,`, its suffix decodes back to the image bytes, and the suffix has 4·⌈n/3⌉ characters |
| LlamaClient.BuildPayload | app/llama_client.py:26-52 | exactly two messages, the system prompt from the current settings first, then the user content `[text, image_url]`; `stream` false, `n` 1, `max_tokens` 1600, no stop; `n_ctx` is the current setting |
| LlamaClient.ExtractContent | app/llama_client.py:57-61 | the content exactly when `choices[0].message.content` exists; subscript by subscript, a missing `choices`, `message` or `content` key, an empty `choices` list or string, or a dict as `choices`, is "Unexpected response" carrying the whole body; a body that is not a dict, a scalar or non-empty string as `choices`, a first choice or a `message` that is not a dict, is a type error |
| LlamaClient.TranslateImage | app/llama_client.py:54-61 | posts the payload to the chat URL, and succeeds exactly when the answer is 2xx with a JSON body whose content path exists, returning that content; otherwise the failures stay distinct: no reply is the request error with its message, a non-2xx answer is an HTTP status error carrying the status, a non-JSON body is a JSON error, and a 2xx JSON answer gives exactly `ExtractContent`'s outcome, so a missing path is "Unexpected response" with the whole body |
| LlamaClient.SlotStates | app/llama_client.py:70 | one state per slot, with `"?"` for a slot without `state`; the comprehension fails exactly when a slot is not a dict or a state cannot go in a set |
| LlamaClient.StringLabels | app/llama_client.py:70-78 | the string labels are exactly the string states |
| LlamaClient.ClassifyStates | app/llama_client.py:71-78 | no states falls through; loading wins, even over active; then active; ready exactly when every state is `"idle"`; with only strings and one that is not `idle`, `状態: ` and the sorted labels joined with `", "`; a non-string state falls through |
| LlamaClient.IdleAndBusyListed | app/llama_client.py:76-78 | the states `idle` and `busy` give `状態: busy, idle` |
| LlamaClient.ClassifySlotsBody | app/llama_client.py:69-71 | a dict whose `slots` is a list classifies the states of its slots, or falls through when the comprehension fails; a body that is not a dict, a missing or empty `slots`, or a `slots` that is not a list gives no slot status |
| LlamaClient.SlotsSignal | app/llama_client.py:65-70 | a slot status comes only from a 2xx answer with a JSON body, and such an answer gives its body's slot status |
| LlamaClient.ModelsStatus | app/llama_client.py:82-89 | any answer, 200 or not, is "API reachable"; only a failed request is "waiting" |
| LlamaClient.GetStatus | app/llama_client.py:63-89 | the slot status when there is one, the models-probe status otherwise |
| LlamaClient.GetStatusLoadingSlot | app/llama_client.py:67-73 | a 2xx `/slots` answer in which some slot is `loading` gives the loading text, whatever the other slots say |
| LlamaClient.GetStatusEmptySlots | app/llama_client.py:70-71 | a 2xx `/slots` answer with no or an empty `slots` list leaves the status to the `/v1/models` probe |
| LlamaClient.GetStatusVocabulary | app/llama_client.py:63-89 | the status is one of the five fixed texts or a `状態: ` listing, and it is never empty, so `get_status` never fails |
| MainApp.Tail | app/main.py:71 | the last 400 lines, or all of them when there are fewer |
| MainApp.LogText | app/main.py:71-72 | the last 400 lines joined with newlines and lower-cased; its properties are stated by `KeywordInTextIffInLine` and `OnlyTailMatters` |
| MainApp.ClassifyLogText | app/main.py:73-85 | the four flags and the if/elif chain over them; its rule order is stated by `LogStatusByRules` and the lemmas after it |
| MainApp.LogStatus | app/main.py:71-85 | the log signal of a readable log; stated by `LogStatusByRules`, `LogStatusChain`, `ErrorWins`, `LoadingWithoutIdle`, `IdleMeansReady`, `StartingOnlyAsLastRule`, `NoKeywordNoSignal` and `OnlyTailMatters` |
| MainApp.KeywordInTextIffInLine | app/main.py:72-76 | each keyword occurs in the lower-cased joined tail exactly when it occurs in one lower-cased tail line |
| MainApp.LogStatusByRules | app/main.py:78-85 | the log status is the first hit of the ordered rule table: error, loading without idle, idle, listening or http server |
| MainApp.LogStatusChain | app/main.py:78-85 | the same rule order as an explicit chain over the tail lines |
| MainApp.ErrorWins | app/main.py:76-79 | `error` in the tail gives the error text whatever else is there |
| MainApp.LoadingWithoutIdle | app/main.py:80-81 | `loading model` without `idle` or `error` gives the loading text |
| MainApp.IdleMeansReady | app/main.py:82-83 | `idle` without `error` gives the ready text, whether or not `loading model` is present |
| MainApp.StartingOnlyAsLastRule | app/main.py:84-85 | the starting text appears exactly when `listening` or `http server` is there and no earlier rule fired |
| MainApp.NoKeywordNoSignal | app/main.py:68-85 | no log signal exactly when none of the five keywords is in the tail |
| MainApp.OnlyTailMatters | app/main.py:71 | lines before the last 400 never change the classification |
| MainApp.MergeStatus | app/main.py:95-101 | the result starts with the log text when there is one, is the probe text when there is none, and always contains the probe text |
| MainApp.MergeCases | app/main.py:95-101 | different signals give `log / probe`, equal ones give `log`, and no log signal gives the probe |
| MainApp.LlamaStatus | app/main.py:64-101 | a missing log gives exactly the probe status; a readable log gives the merge; any other failure to open it is a 500 |
| MainApp.TargetCtx | app/main.py:34 | `ctx` when it is present and non-zero, the current setting otherwise, so 0 falls back |
| MainApp.PromptArg | app/main.py:50 | an empty prompt is passed on as no prompt, any other prompt unchanged |
| MainApp.TranslateResponseFor | app/main.py:36-56 | the answer of `translate` for a settings value; stated by `TranslateSendsTargetCtx`, `TranslateFailureDetail` and `ImageFailureIs400`, and tied to the state change by `Translate` |
| MainApp.Translate | app/main.py:27-56 | the response is the one defined for the settings as they were, and the settings change only in `ctx_size`, set to the target once the image was read |
| MainApp.TranslateSendsTargetCtx | app/main.py:48-56 | the request goes to the chat URL with `n_ctx` equal to the target and the default prompt for an empty one; success exactly when the answer has the content, reporting the target `ctx`; every other failure is a 500 whose detail is the client error that `translate_image` gives for that request |
| MainApp.TranslateFailureDetail | app/main.py:49-52 | a request that raised, a non-2xx answer, a non-JSON body and a JSON object without `choices` each give a 500 whose detail is that error: the message, the status, the JSON error, or "Unexpected response" with the whole body |
| MainApp.ImageFailureIs400 | app/main.py:43-44 | an unreadable image is a 400 whose detail starts "Failed to read image:", and the settings are untouched |
| MainApp.ContextOverridePersists | app/main.py:34 | after a request with `ctx = k`, a later request without `ctx` (or with 0) uses `k` |
| Frontend.EscapeHtml | app/static/main.js:12-19 | the five replacements in the source's order; stated by `EscapeHtmlIsPerChar`, `UnescapeEscapeHtml`, `EscapeHtmlHasNoMarkup` and `EscapeHtmlPlainText` |
| Frontend.ReplaceAppend | app/static/main.js:13-18 | a global one-character replacement distributes over concatenation |
| Frontend.ReplaceAbsent | app/static/main.js:13-18 | replacing a character the text does not contain changes nothing |
| Frontend.EscapeHtmlAppend | app/static/main.js:12-19 | escaping distributes over concatenation |
| Frontend.EscapeHtmlOne | app/static/main.js:13-18 | on a single character the chain yields that character's entity, or the character itself |
| Frontend.EscapeHtmlIsPerChar | app/static/main.js:12-19 | the chain of five replacements equals escaping each character on its own |
| Frontend.UnescapeEscapeHtml | app/static/main.js:13-18 | reading the five entities back gives exactly the input |
| Frontend.EscapeHtmlHasNoMarkup | app/static/main.js:12-19 | the output has no `<`, `>`, `"` or `'` |
| Frontend.EscapeHtmlPlainText | app/static/main.js:13-18 | a text with none of the five characters is returned unchanged |
| Frontend.AmpersandLastDoubleEscapes | app/static/main.js:14-15 | an illustration on one input of why `&` must come first: in the other order `<` would become `&amp;lt;`, which reads back as `&lt;` |
| Frontend.StatusText | app/static/main.js:40-45 | the text gets `\n` and the hint appended exactly when it contains the loading marker and not the hint |
| Frontend.StatusTextIdempotent | app/static/main.js:41-43 | a loading status always ends up with the hint, and decorating twice is decorating once |
| Frontend.RenderMarkdown | app/static/main.js:21-38 | empty exactly for empty input; otherwise `<p>`, the escaped and transformed text, then `</p>` |
| Frontend.RoundedKiB | app/static/main.js:106 | `Math.round(size/1024)`: the nearest whole KB, a half rounded up |
| Frontend.FileLabel | app/static/main.js:106 | the name, or "pasted image" when it is empty, then ` (`, decimal digits without a leading zero that denote the size rounded to the nearest KB, then ` KB)` |
| Frontend.PollStatusText | app/static/main.js:48-55 | the status after one poll: the decorated `status` field or "状態取得に失敗", the unchanged text on a non-OK answer, the waiting text on an exception; stated through `Page.PollStatus` |
| Frontend.SendResultText | app/static/main.js:86-97 | the status after a send: "完了", or "エラー: " with the exception message, the `detail`, or else the status text; stated through `Page.SendFinished` |
| Frontend.Page.constructor | app/static/main.js:9-10 | no file, no timer, no interval, an enabled button |
| Frontend.Page.SetStatus | app/static/main.js:40-45 | the status shows the decorated text |
| Frontend.Page.PollStatus | app/static/main.js:47-61 | status as the reply dictates, non-OK leaving it; afterwards exactly one 15 s interval, and a second call installs none |
| Frontend.Page.Send | app/static/main.js:72-80 | without a file only the "paste an image" status; while disabled nothing changes; otherwise the button is disabled, "sending" shown, and the one request goes out |
| Frontend.Page.SendFinished | app/static/main.js:85-100 | on every outcome the button is enabled again; the status is the error (detail, else status text) or "done", and only success renders the Markdown |
| Frontend.Page.AcceptFile | app/static/main.js:103-109 | the file is held, its label (name or "pasted image", size rounded to KB) shown, and it is sent unless a request is in flight |

## Left out

- The PIL decode and re-encode to PNG (app/main.py:39-42) is foreign code. It is the input `ImageRead`: the bytes, or the exception text.
- httpx is left out: the transport, the 300 s timeout, `aclose`, and the exception classes and their messages. A client failure is a `ClientError` value. Its `str(exc)` text (httpx messages, the `repr` of the body, the text of a `TypeError`) is not rendered.
- `raise_for_status` is taken to reject every status outside 200-299. Redirects are not followed, so a 3xx is an error too.
- `resp.json()` is modelled only as "parsed or not". JSON numbers are integers. Floats and the bool/int equality of Python sets do not matter to any branch modelled here.
- Lower-casing is ASCII only. No non-ASCII character lowers to anything that can complete one of the five ASCII keywords:
  - U+212A lowers to `k`, which no keyword contains;
  - U+0130 lowers to `i` followed by U+0307, which no keyword contains.

  So the keyword tests give the same answers as Python's `str.lower`.
- The log file is an input. The real open and read, and its `errors="ignore"` decoding, are left out.
- Only `FileNotFoundError` is caught around the log read, as the code does. Any other error reading the log therefore makes the endpoint fail (`LlamaStatus` answers 500) instead of degrading to "no log signal".
- The float generation parameters (`temperature`, `top_p`, `min_p`, `repetition_penalty`) are opaque `real` constants. No arithmetic is done on them.
- Parsing the environment variables (`os.getenv`, `int(...)`) and the `lru_cache` around `get_settings` are left out. The constructor receives the looked-up values; a `LLAMA_CTX` that `int` rejects is not modelled.
- The regular-expression passes of `renderMarkdown` (app/static/main.js:25-35) are the parameter `passes`.
- The page is left out where it only touches the platform:
  - the DOM writes, FileReader preview, clipboard button, event wiring and the `FormData` body;
  - the trimmed prompt field;
  - `console.error`.
- Non-string `status`, `detail` or `markdown` values in the browser's JSON replies are not modelled; JavaScript would stringify them or throw.
- The `interval` parameter of `pollStatus` is never read by the code, so it has no counterpart.
- Concurrency is left out: overlapping requests racing on the shared `ctx_size`, and a poll arriving while a send is in flight. Each operation is one sequential step.
- `AcceptFile` runs the part of `send` that precedes its `await`. The continuation after the answer is `SendFinished`.
- `ctx = 0` or a missing `ctx` falls back to the *current* `settings.ctx_size` (app/main.py:34). An earlier request has already overwritten that value (app/main.py:48), so it is not the configured default. The model follows the code (`ContextOverridePersists`).
- The base64 decoder accepts a final quantum with non-zero pad bits. Only the round trip of encoded data is claimed, not canonical rejection.
- FastAPI routing, CORS, the static mount and `/health` are left out.
