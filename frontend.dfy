/**
 * The browser page (app/static/main.js): its string helpers (`escapeHtml`,
 * the status hint of `setStatus`, the wrapper of `renderMarkdown`) and the
 * page state that `pollStatus`, `send` and `acceptFile` update.
 */
module Frontend {
  import opened Wrappers
  import opened Strings

  /** `s.replace(/c/g, rep)` for a one-character pattern. */
  function ReplaceChar(s: string, c: char, rep: string): string {
    if |s| == 0 then "" else (if s[0] == c then rep else [s[0]]) + ReplaceChar(s[1..], c, rep)
  }

  lemma {:induction false} ReplaceAppend(a: string, b: string, c: char, rep: string)
    ensures ReplaceChar(a + b, c, rep) == ReplaceChar(a, c, rep) + ReplaceChar(b, c, rep)
  {
    if |a| > 0 {
      assert (a + b)[1..] == a[1..] + b;
      ReplaceAppend(a[1..], b, c, rep);
    } else {
      assert a + b == b;
    }
  }

  lemma {:induction false} ReplaceAbsent(s: string, c: char, rep: string)
    requires c !in s
    ensures ReplaceChar(s, c, rep) == s
  {
    if |s| > 0 {
      ReplaceAbsent(s[1..], c, rep);
      assert s == [s[0]] + s[1..];
    }
  }

  /** `escapeHtml`: five global replacements, `&` first. */
  function EscapeHtml(s: string): string {
    var amp := ReplaceChar(s, '&', "&amp;");
    var lt := ReplaceChar(amp, '<', "&lt;");
    var gt := ReplaceChar(lt, '>', "&gt;");
    var quot := ReplaceChar(gt, '"', "&quot;");
    ReplaceChar(quot, '\'', "&#39;")
  }

  /** The text one character stands for after escaping. */
  function EscapeChar(c: char): string {
    if c == '&' then "&amp;"
    else if c == '<' then "&lt;"
    else if c == '>' then "&gt;"
    else if c == '"' then "&quot;"
    else if c == '\'' then "&#39;"
    else [c]
  }

  /** The reference definition: every character escaped on its own. */
  function EscapeEach(s: string): string {
    if |s| == 0 then "" else EscapeChar(s[0]) + EscapeEach(s[1..])
  }

  lemma EscapeHtmlAppend(a: string, b: string)
    ensures EscapeHtml(a + b) == EscapeHtml(a) + EscapeHtml(b)
  {
    var a1, b1 := ReplaceChar(a, '&', "&amp;"), ReplaceChar(b, '&', "&amp;");
    ReplaceAppend(a, b, '&', "&amp;");
    var a2, b2 := ReplaceChar(a1, '<', "&lt;"), ReplaceChar(b1, '<', "&lt;");
    ReplaceAppend(a1, b1, '<', "&lt;");
    var a3, b3 := ReplaceChar(a2, '>', "&gt;"), ReplaceChar(b2, '>', "&gt;");
    ReplaceAppend(a2, b2, '>', "&gt;");
    var a4, b4 := ReplaceChar(a3, '"', "&quot;"), ReplaceChar(b3, '"', "&quot;");
    ReplaceAppend(a3, b3, '"', "&quot;");
    ReplaceAppend(a4, b4, '\'', "&#39;");
  }

  lemma ReplaceOne(x: char, c: char, rep: string)
    ensures ReplaceChar([x], c, rep) == if x == c then rep else [x]
  {
    assert [x][1..] == "";
  }

  /** `escapeHtml` on one character, for each of the five special ones and for any other. */
  lemma EscapeHtmlOne(c: char)
    ensures EscapeHtml([c]) == EscapeChar(c)
  {
    ReplaceOne(c, '&', "&amp;");
    if c == '&' {
      EscapeAmp();
    } else {
      ReplaceOne(c, '<', "&lt;");
      if c == '<' {
        EscapeLt();
      } else {
        ReplaceOne(c, '>', "&gt;");
        if c == '>' {
          EscapeGt();
        } else {
          ReplaceOne(c, '"', "&quot;");
          if c == '"' {
            ReplaceAbsent("&quot;", '\'', "&#39;");
          } else {
            ReplaceOne(c, '\'', "&#39;");
          }
        }
      }
    }
  }

  lemma EscapeAmp()
    ensures EscapeHtml("&") == "&amp;"
  {
    var e := "&amp;";
    ReplaceOne('&', '&', e);
    assert ReplaceChar("&", '&', e) == e;
    assert '<' !in e && '>' !in e && '"' !in e && '\'' !in e;
    ReplaceAbsent(e, '<', "&lt;");
    assert ReplaceChar(e, '<', "&lt;") == e;
    ReplaceAbsent(e, '>', "&gt;");
    assert ReplaceChar(e, '>', "&gt;") == e;
    ReplaceAbsent(e, '"', "&quot;");
    assert ReplaceChar(e, '"', "&quot;") == e;
    ReplaceAbsent(e, '\'', "&#39;");
  }

  lemma EscapeLt()
    ensures EscapeHtml("<") == "&lt;"
  {
    var e := "&lt;";
    ReplaceOne('<', '&', "&amp;");
    assert ReplaceChar("<", '&', "&amp;") == "<";
    ReplaceOne('<', '<', e);
    assert ReplaceChar("<", '<', e) == e;
    assert '>' !in e && '"' !in e && '\'' !in e;
    ReplaceAbsent(e, '>', "&gt;");
    assert ReplaceChar(e, '>', "&gt;") == e;
    ReplaceAbsent(e, '"', "&quot;");
    assert ReplaceChar(e, '"', "&quot;") == e;
    ReplaceAbsent(e, '\'', "&#39;");
  }

  lemma EscapeGt()
    ensures EscapeHtml(">") == "&gt;"
  {
    var e := "&gt;";
    ReplaceOne('>', '&', "&amp;");
    assert ReplaceChar(">", '&', "&amp;") == ">";
    ReplaceOne('>', '<', "&lt;");
    assert ReplaceChar(">", '<', "&lt;") == ">";
    ReplaceOne('>', '>', e);
    assert ReplaceChar(">", '>', e) == e;
    assert '"' !in e && '\'' !in e;
    ReplaceAbsent(e, '"', "&quot;");
    assert ReplaceChar(e, '"', "&quot;") == e;
    ReplaceAbsent(e, '\'', "&#39;");
  }

  /** The chain of replacements escapes each character independently. */
  lemma {:induction false} EscapeHtmlIsPerChar(s: string)
    ensures EscapeHtml(s) == EscapeEach(s)
  {
    if |s| > 0 {
      assert s == [s[0]] + s[1..];
      EscapeHtmlAppend([s[0]], s[1..]);
      EscapeHtmlOne(s[0]);
      EscapeHtmlIsPerChar(s[1..]);
    }
  }

  /** Reads the five entities back, left to right; every other character stands for itself. */
  function Unescape(s: string): string
    decreases |s|
  {
    if |s| == 0 then ""
    else if IsPrefix("&amp;", s) then "&" + Unescape(s[5..])
    else if IsPrefix("&lt;", s) then "<" + Unescape(s[4..])
    else if IsPrefix("&gt;", s) then ">" + Unescape(s[4..])
    else if IsPrefix("&quot;", s) then "\"" + Unescape(s[6..])
    else if IsPrefix("&#39;", s) then "'" + Unescape(s[5..])
    else [s[0]] + Unescape(s[1..])
  }

  lemma UnescapeFront(c: char, rest: string)
    ensures Unescape(EscapeChar(c) + rest) == [c] + Unescape(rest)
  {
    if c == '&' {
      UnescapeAmp(rest);
    } else if c == '<' {
      UnescapeLt(rest);
    } else if c == '>' {
      UnescapeGt(rest);
    } else if c == '"' {
      UnescapeQuot(rest);
    } else if c == '\'' {
      UnescapeApos(rest);
    } else {
      var s := [c] + rest;
      assert s[0] == c && s[1..] == rest;
      assert !IsPrefix("&amp;", s) && !IsPrefix("&lt;", s) && !IsPrefix("&gt;", s);
      assert !IsPrefix("&quot;", s) && !IsPrefix("&#39;", s);
    }
  }

  lemma UnescapeAmp(rest: string)
    ensures Unescape("&amp;" + rest) == "&" + Unescape(rest)
  {
    var s := "&amp;" + rest;
    assert s[..5] == "&amp;" && s[5..] == rest;
  }

  lemma UnescapeLt(rest: string)
    ensures Unescape("&lt;" + rest) == "<" + Unescape(rest)
  {
    var s := "&lt;" + rest;
    assert s[1] == 'l';
    assert !IsPrefix("&amp;", s);
    assert s[..4] == "&lt;" && s[4..] == rest;
  }

  lemma UnescapeGt(rest: string)
    ensures Unescape("&gt;" + rest) == ">" + Unescape(rest)
  {
    var s := "&gt;" + rest;
    assert s[1] == 'g';
    assert !IsPrefix("&amp;", s) && !IsPrefix("&lt;", s);
    assert s[..4] == "&gt;" && s[4..] == rest;
  }

  lemma UnescapeQuot(rest: string)
    ensures Unescape("&quot;" + rest) == "\"" + Unescape(rest)
  {
    var s := "&quot;" + rest;
    assert s[1] == 'q';
    assert !IsPrefix("&amp;", s) && !IsPrefix("&lt;", s) && !IsPrefix("&gt;", s);
    assert s[..6] == "&quot;" && s[6..] == rest;
  }

  lemma UnescapeApos(rest: string)
    ensures Unescape("&#39;" + rest) == "'" + Unescape(rest)
  {
    var s := "&#39;" + rest;
    assert s[1] == '#';
    assert !IsPrefix("&amp;", s) && !IsPrefix("&lt;", s) && !IsPrefix("&gt;", s) && !IsPrefix("&quot;", s);
    assert s[..5] == "&#39;" && s[5..] == rest;
  }

  /** Because `&` is replaced first, unescaping the entities gives back exactly the input. */
  lemma {:induction false} UnescapeEscapeHtml(s: string)
    ensures Unescape(EscapeHtml(s)) == s
  {
    EscapeHtmlIsPerChar(s);
    UnescapeEach(s);
  }

  lemma {:induction false} UnescapeEach(s: string)
    ensures Unescape(EscapeEach(s)) == s
  {
    if |s| > 0 {
      UnescapeFront(s[0], EscapeEach(s[1..]));
      UnescapeEach(s[1..]);
      assert s == [s[0]] + s[1..];
    }
  }

  predicate IsMarkupChar(c: char) {
    c == '<' || c == '>' || c == '"' || c == '\''
  }

  /** The escaped text has no `<`, `>`, `"` or `'` left in it. */
  lemma {:induction false} EscapeHtmlHasNoMarkup(s: string)
    ensures forall i :: 0 <= i < |EscapeHtml(s)| ==> !IsMarkupChar(EscapeHtml(s)[i])
  {
    EscapeHtmlIsPerChar(s);
    EscapeEachHasNoMarkup(s);
  }

  lemma {:induction false} EscapeEachHasNoMarkup(s: string)
    ensures forall i :: 0 <= i < |EscapeEach(s)| ==> !IsMarkupChar(EscapeEach(s)[i])
  {
    if |s| > 0 {
      EscapeEachHasNoMarkup(s[1..]);
      var e := EscapeChar(s[0]);
      assert forall i :: 0 <= i < |e| ==> !IsMarkupChar(e[i]);
      assert EscapeEach(s) == e + EscapeEach(s[1..]);
    }
  }

  /** A text without any of the five characters comes out unchanged. */
  lemma {:induction false} EscapeHtmlPlainText(s: string)
    requires forall i :: 0 <= i < |s| ==> s[i] != '&' && !IsMarkupChar(s[i])
    ensures EscapeHtml(s) == s
  {
    ReplaceAbsent(s, '&', "&amp;");
    ReplaceAbsent(s, '<', "&lt;");
    ReplaceAbsent(s, '>', "&gt;");
    ReplaceAbsent(s, '"', "&quot;");
    ReplaceAbsent(s, '\'', "&#39;");
  }

  /** Were `&` replaced last, the entity written for `<` would itself be escaped, and reading back would not give `<`. */
  lemma AmpersandLastDoubleEscapes()
    ensures ReplaceChar(ReplaceChar("<", '<', "&lt;"), '&', "&amp;") == "&amp;lt;"
    ensures Unescape("&amp;lt;") == "&lt;"
  {
    ReplaceOne('<', '<', "&lt;");
    var lt := "&lt;";
    assert lt == [lt[0]] + lt[1..];
    ReplaceOne('&', '&', "&amp;");
    ReplaceAbsent(lt[1..], '&', "&amp;");
    ReplaceAppend([lt[0]], lt[1..], '&', "&amp;");
    var t := "&amp;lt;";
    assert IsPrefix("&amp;", t);
    assert t[5..] == "lt;";
    var u := "lt;";
    assert !IsPrefix("&amp;", u) && !IsPrefix("&lt;", u) && !IsPrefix("&gt;", u);
    assert !IsPrefix("&quot;", u) && !IsPrefix("&#39;", u);
    assert u[1..] == "t;";
    assert u[1..][1..] == ";";
    assert u[1..][1..][1..] == "";
  }

  const LoadingMarker := "モデル読み込み中"
  const HintMarker := "準備完了と表示されてから"
  const Hint := "準備完了と表示されてから画像を読み込ませてください"

  /** The text `setStatus` shows: the hint is appended on its own line to a loading status that lacks it. */
  function StatusText(text: string): (r: string)
    ensures r == text || r == text + "\n" + Hint
    ensures r != text <==> Contains(text, LoadingMarker) && !Contains(text, HintMarker)
  {
    if Contains(text, LoadingMarker) && !Contains(text, HintMarker) then
      text + "\n" + Hint
    else
      text
  }

  lemma HintMarkerInHint()
    ensures Contains(Hint, HintMarker)
  {
    ContainsAt(Hint, HintMarker, 0);
  }

  /** A loading status always ends up carrying the hint, and setting the same status twice adds it once. */
  lemma StatusTextIdempotent(text: string)
    ensures Contains(text, LoadingMarker) ==> Contains(StatusText(text), HintMarker)
    ensures StatusText(StatusText(text)) == StatusText(text)
  {
    var r := StatusText(text);
    if r != text {
      HintMarkerInHint();
      ContainsInRight(text + "\n", Hint, HintMarker);
    }
  }

  predicate IsSuffix(p: string, s: string) {
    |p| <= |s| && s[|s| - |p|..] == p
  }

  /**
   * `renderMarkdown`: nothing for an empty text; otherwise the escaped text,
   * after the Markdown passes, in one `<p>` element. `passes` stands for the
   * chain of regular-expression replacements.
   */
  function RenderMarkdown(md: string, passes: string -> string): (html: string)
    ensures md == "" <==> html == ""
    ensures md != "" ==> IsPrefix("<p>", html) && IsSuffix("</p>", html)
    ensures md != "" ==> html == "<p>" + passes(EscapeHtml(md)) + "</p>"
  {
    if md == "" then "" else "<p>" + passes(EscapeHtml(md)) + "</p>"
  }

  /** The file the page holds: a `File`'s name and size in bytes. */
  datatype File = File(name: string, size: nat)

  /** What `fetch('/api/llama-status')` gave: an exception (network or JSON), a non-OK answer, or the `status` field. */
  datatype PollReply = PollFailed | PollNotOk | PollJson(status: Option<string>)

  /** What `fetch('/api/translate')` gave: an exception, a non-OK answer with its `detail` and status text, or the `markdown` field. */
  datatype SendReply = SendFailed(message: string) | SendRejected(detail: Option<string>, statusText: string) | SendDone(markdown: Option<string>)

  const PollFailedText := "llama-server 起動中 (状態確認待ち)"
  const PollEmptyText := "状態取得に失敗"
  const NoFileText := "画像を貼り付けてください"
  const SendingText := "送信中..."
  const DoneText := "完了"
  const ErrorPrefix := "エラー: "
  const PollPeriod := 15000

  /** JavaScript's `x || fallback` for a string that may be missing. */
  function OrElse(o: Option<string>, fallback: string): string {
    if o.Some? && o.value != "" then o.value else fallback
  }

  /** The status text after one poll; a non-OK answer leaves the current text. */
  function PollStatusText(reply: PollReply, current: string): string {
    match reply
    case PollFailed => StatusText(PollFailedText)
    case PollNotOk => current
    case PollJson(status) => StatusText(OrElse(status, PollEmptyText))
  }

  /** The status text a finished send leaves. */
  function SendResultText(reply: SendReply): string {
    match reply
    case SendFailed(message) => StatusText(ErrorPrefix + message)
    case SendRejected(detail, statusText) => StatusText(ErrorPrefix + OrElse(detail, statusText))
    case SendDone(_) => StatusText(DoneText)
  }

  /** `Math.round(size / 1024)` for a size in bytes: the nearest whole KB, a half rounded up. */
  function RoundedKiB(size: nat): (k: nat)
    ensures 1024 * k <= size + 512 < 1024 * k + 1024
  {
    (size + 512) / 1024
  }

  /**
   * `acceptFile`'s status line: the name (or "pasted image"), then the size
   * in KB, rounded, as decimal digits in parentheses.
   */
  function FileLabel(file: File): (text: string)
    ensures var name := if file.name == "" then "pasted image" else file.name;
      && |text| > |name| + 6
      && IsPrefix(name + " (", text) && IsSuffix(" KB)", text)
      && var digits := text[|name| + 2..|text| - 4];
        && AllDigits(digits) && (digits[0] == '0' ==> |digits| == 1)
        && 1024 * DecimalValue(digits) <= file.size + 512 < 1024 * DecimalValue(digits) + 1024
  {
    var name := if file.name == "" then "pasted image" else file.name;
    var digits := NatToDecimal(RoundedKiB(file.size));
    var text := name + " (" + digits + " KB)";
    assert text[|name| + 2..|text| - 4] == digits;
    assert text[..|name| + 2] == name + " (";
    text
  }

  class Page {
    /** `statusEl.textContent` and `markdownEl.innerHTML`. */
    var status: string
    var markdownHtml: string
    var currentFile: Option<File>
    var submitDisabled: bool
    /** `statusTimer`: the id `setInterval` returned, once there is one. */
    var statusTimer: Option<nat>
    /** The periods of the intervals the page has installed with `setInterval`. */
    var intervals: seq<nat>
    /** Requests to `/api/translate` that have been sent and not yet answered. */
    ghost var requestsInFlight: nat

    /**
     * At most one poll interval, and `statusTimer` set exactly when it is
     * installed; the submit button is disabled exactly while a request is
     * in flight, and there is never more than one.
     */
    ghost predicate Valid()
      reads this
    {
      && |intervals| <= 1
      && (statusTimer.Some? <==> |intervals| == 1)
      && (forall i :: 0 <= i < |intervals| ==> intervals[i] == PollPeriod)
      && requestsInFlight <= 1
      && (submitDisabled <==> requestsInFlight == 1)
    }

    constructor ()
      ensures Valid()
      ensures status == "" && markdownHtml == "" && currentFile.None? && !submitDisabled
      ensures statusTimer.None? && intervals == []
    {
      status := "";
      markdownHtml := "";
      currentFile := None;
      submitDisabled := false;
      statusTimer := None;
      intervals := [];
      requestsInFlight := 0;
    }

    /** `setStatus`. */
    method SetStatus(text: string)
      modifies this`status
      ensures status == StatusText(text)
    {
      status := StatusText(text);
    }

    /** `pollStatus`: update the status from the reply, then install the 15 s interval unless there is one. */
    method PollStatus(reply: PollReply)
      requires Valid()
      modifies this`status, this`statusTimer, this`intervals
      ensures Valid()
      ensures status == PollStatusText(reply, old(status))
      ensures intervals == [PollPeriod] && statusTimer.Some?
      ensures old(statusTimer).Some? ==> statusTimer == old(statusTimer) && intervals == old(intervals)
    {
      match reply {
        case PollFailed =>
          SetStatus(PollFailedText);
        case PollNotOk =>
        case PollJson(st) =>
          SetStatus(OrElse(st, PollEmptyText));
      }
      if statusTimer.None? {
        intervals := intervals + [PollPeriod];
        statusTimer := Some(|intervals|);
      }
    }

    /**
     * `send` up to the request: without a file only the status changes;
     * while a request is in flight nothing changes; otherwise the button is
     * disabled and the request goes out.
     */
    method Send() returns (requested: bool)
      requires Valid()
      modifies this`status, this`submitDisabled, this`requestsInFlight
      ensures Valid()
      ensures requested <==> currentFile.Some? && !old(submitDisabled)
      ensures currentFile.None? ==> status == StatusText(NoFileText) && submitDisabled == old(submitDisabled)
      ensures currentFile.Some? && old(submitDisabled) ==> status == old(status) && submitDisabled
      ensures requested ==> submitDisabled && status == StatusText(SendingText)
      ensures requested ==> old(requestsInFlight) == 0 && requestsInFlight == 1
      ensures !requested ==> requestsInFlight == old(requestsInFlight)
    {
      if currentFile.None? {
        SetStatus(NoFileText);
        return false;
      }
      if submitDisabled {
        return false;
      }
      submitDisabled := true;
      requestsInFlight := 1;
      SetStatus(SendingText);
      requested := true;
    }

    /**
     * `send` after the answer: the status and the rendered Markdown, and the
     * button enabled again whether the request succeeded or failed.
     */
    method SendFinished(reply: SendReply, passes: string -> string)
      requires Valid() && requestsInFlight == 1
      modifies this`status, this`markdownHtml, this`submitDisabled, this`requestsInFlight
      ensures Valid()
      ensures !submitDisabled && requestsInFlight == 0
      ensures status == SendResultText(reply)
      ensures markdownHtml == (if reply.SendDone? then RenderMarkdown(OrElse(reply.markdown, ""), passes) else old(markdownHtml))
    {
      match reply {
        case SendFailed(message) =>
          SetStatus(ErrorPrefix + message);
        case SendRejected(detail, statusText) =>
          SetStatus(ErrorPrefix + OrElse(detail, statusText));
        case SendDone(markdown) =>
          markdownHtml := RenderMarkdown(OrElse(markdown, ""), passes);
          SetStatus(DoneText);
      }
      submitDisabled := false;
      requestsInFlight := 0;
    }

    /** `acceptFile`: hold the file, show its label, and send it at once. */
    method AcceptFile(file: File) returns (requested: bool)
      requires Valid()
      modifies this`currentFile, this`status, this`submitDisabled, this`requestsInFlight
      ensures Valid()
      ensures currentFile == Some(file)
      ensures requested <==> !old(submitDisabled)
      ensures requested ==> status == StatusText(SendingText) && submitDisabled
      ensures !requested ==> status == StatusText(FileLabel(file)) && submitDisabled
    {
      currentFile := Some(file);
      SetStatus(FileLabel(file));
      requested := Send();
    }
  }
}
