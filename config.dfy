/**
 * The process-wide settings object (app/config.py). It is created once and
 * shared; the translate endpoint writes its `ctx_size` field in place.
 */
module Config {
  import opened Wrappers

  const DefaultApiBase := "http://127.0.0.1:8009"
  const DefaultCtxSize := 8192
  const DefaultModelName := "qwen3-vl"

  /** The fixed system instruction sent as the first chat message. */
  const SystemPrompt :=
    "You are a precise OCR + translation assistant."
    + " 1) Extract *all* text from the image with exact spacing and line breaks."
    + " 2) Preserve code blocks and inline code verbatim; do not translate code."
    + " 3) For natural-language text, translate to Japanese with faithful meaning, no summary."
    + " 4) Keep ordering; do not drop bullet points or lines."
    + " 5) Output must be Markdown."

  /** A snapshot of the four settings fields, for the pure code that reads them. */
  datatype SettingsValue = SettingsValue(apiBase: string, ctxSize: int, modelName: string, systemPrompt: string)

  class Settings {
    var apiBase: string
    var ctxSize: int
    var modelName: string
    var systemPrompt: string

    /**
     * The settings as read at start-up. Each argument is what `os.getenv`
     * found for `LLAMA_SERVER_URL`, `LLAMA_CTX` (already converted by
     * `int`) and `LLAMA_MODEL_NAME`; an unset variable takes its default,
     * a variable set to the empty string keeps that empty string.
     */
    constructor (apiBase: Option<string>, ctxSize: Option<int>, modelName: Option<string>)
      ensures Value() == SettingsValue(
        if apiBase.Some? then apiBase.value else DefaultApiBase,
        if ctxSize.Some? then ctxSize.value else DefaultCtxSize,
        if modelName.Some? then modelName.value else DefaultModelName,
        SystemPrompt)
    {
      this.apiBase := if apiBase.Some? then apiBase.value else DefaultApiBase;
      this.ctxSize := if ctxSize.Some? then ctxSize.value else DefaultCtxSize;
      this.modelName := if modelName.Some? then modelName.value else DefaultModelName;
      this.systemPrompt := SystemPrompt;
    }

    function Value(): SettingsValue
      reads this
    {
      SettingsValue(apiBase, ctxSize, modelName, systemPrompt)
    }

    /** `settings.ctx_size = n`: the one field that changes; the others keep their values. */
    method SetCtxSize(n: int)
      modifies this`ctxSize
      ensures Value() == old(Value()).(ctxSize := n)
    {
      ctxSize := n;
    }
  }
}
