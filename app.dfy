/**
 The `/analyze` upload endpoint of the Flask server (app.py): the file-name
 check, the early-return validation ladder, the success payload and the
 insight text, with pandas, Flask and the Gemini client as parameters.
 */
module App {
  import opened Wrappers
  import opened PyStr
  import opened DataFrame
  import Eda

  // ---------- Upload check ----------

  const AllowedExtensions: set<string> := {"csv"}

  /** `allowed_file`: a `.` occurs, and the text after the last one, lower-cased, is an allowed extension. */
  predicate AllowedFile(filename: string)
  {
    '.' in filename && Lower(RSplitOnce(filename, '.')[1]) in AllowedExtensions
  }

  // ---------- Optional AI ----------

  /**
   `AI_ENABLED` as the module's import leaves it: the Gemini SDK must import,
   `GEMINI_API_KEY` must be set to a non-empty value, and creating the client
   must not raise.
   */
  function AiEnabledAtImport(sdkImported: bool, apiKey: Option<string>, clientCreated: bool): (enabled: bool)
    ensures enabled ==> apiKey.Some? && apiKey.value != ""
    ensures enabled ==> sdkImported
  {
    if !sdkImported then false
    else if apiKey.None? || apiKey.value == "" then false
    else clientCreated
  }

  /** What `client.models.generate_content` gives back: the reply text, or the exception's text. */
  datatype GeminiReply = Answered(text: string) | Failed(reason: string)

  /** The module globals `AI_ENABLED` and `client`; `ask` stands for the Gemini call on a prompt. */
  datatype AiClient = AiClient(enabled: bool, ask: string -> GeminiReply)

  /** `ai` is the client the module's import leaves: its switch is `AI_ENABLED` as set at import. */
  predicate ImportedClient(ai: AiClient, sdkImported: bool, apiKey: Option<string>, clientCreated: bool)
  {
    ai.enabled == AiEnabledAtImport(sdkImported, apiKey, clientCreated)
  }

  const RowsLabel := "\nDataset Overview\n----------------\nRows: "
  const ColumnsLabel := "\nColumns: "
  const TypesLabel := "\n\nColumn Data Types\n-----------------\n"
  const MissingLabel := "\n\nMissing Values\n--------------\n"

  /** The plain-text dataset summary built at the top of `generate_ai_insights`. */
  function Summary(t: Table): string
  {
    RowsLabel + NatToString(t.rows) + ColumnsLabel + NatToString(t.cols)
    + TypesLabel + t.dtypesText + MissingLabel + t.missingText + "\n"
  }

  /**
   The fixed text put before the summary when AI is off. The repository's
   file stores the warning sign and the bullets already mis-decoded
   (UTF-8 bytes read as Windows-1252), so these are the characters Python
   actually returns.
   */
  const FallbackHeader :=
    "\U{E2}\U{161}\U{A0}\U{EF}\U{B8} AI Insights (Fallback Mode)\n\n"
    + "\U{E2}\U{20AC}\U{A2} Dataset loaded successfully\n"
    + "\U{E2}\U{20AC}\U{A2} Identify columns with high missing values\n"
    + "\U{E2}\U{20AC}\U{A2} Review numerical distributions\n"
    + "\U{E2}\U{20AC}\U{A2} Consider feature scaling before modeling\n"
    + "\U{E2}\U{20AC}\U{A2} Check categorical columns for imbalance\n\n"

  const PromptIntro := "\nYou are a senior data analyst.\nAnalyze the dataset summary below and provide\nclear, concise, actionable insights.\n\n"

  /** The prompt sent to Gemini: a fixed instruction, the summary, a final newline. */
  function Prompt(summary: string): (p: string)
    ensures |p| == |PromptIntro| + |summary| + 1
    ensures p[|PromptIntro|..|PromptIntro| + |summary|] == summary
  {
    PromptIntro + summary + "\n"
  }

  const GeminiFailurePrefix := "AI insight generation failed.\nReason: "

  /** `generate_ai_insights`: the fallback text when AI is off, otherwise Gemini's answer or the failure note. */
  function GenerateInsights(t: Table, ai: AiClient): string
  {
    var summary := Summary(t);
    if !ai.enabled then
      FallbackHeader + summary
    else
      match ai.ask(Prompt(summary))
      case Answered(text) => text
      case Failed(reason) => GeminiFailurePrefix + reason
  }

  // ---------- The /analyze endpoint ----------

  /** One part of `request.files` under the field name `file`. */
  datatype Upload = Upload(filename: string, content: seq<bv8>)

  datatype Payload = Payload(
    shape: seq<nat>,
    columns: seq<string>,
    eda: Eda.Report,
    dataTypes: map<string, string>,
    correlation: map<string, map<string, real>>,
    aiInsights: string)

  /** The JSON body and status code `analyze` returns; a success carries status 200. */
  datatype Response =
    | ErrorReply(status: nat, error: string, details: Option<string>)
    | Success(payload: Payload)

  function BadRequest(message: string): Response
  {
    ErrorReply(400, message, None)
  }

  /** The correlation block: computed only when at least two numeric columns exist. */
  function Correlation(t: Table): map<string, map<string, real>>
  {
    if t.numericColumnCount >= 2 then t.correlation else map[]
  }

  /**
   `analyze`: the validation ladder (no `file` field, empty name, wrong
   extension, unparseable or empty table) and the success payload.
   `request` is `None` when the form has no `file` field; `readCsv` stands
   for `pd.read_csv` and every pandas step after it, any exception of which
   the catch-all turns into a 500 reply.
   */
  function Analyze(request: Option<Upload>, readCsv: seq<bv8> -> ParseOutcome, ai: AiClient): (r: Response)
    ensures r.Success? ==> request.Some? && AllowedFile(request.value.filename)
    ensures r.ErrorReply? ==> (r.status == 400 && r.details.None?) || (r.status == 500 && r.error == "Analysis failed")
  {
    if request.None? then BadRequest("No file uploaded")
    else if request.value.filename == "" then BadRequest("No file selected")
    else if !AllowedFile(request.value.filename) then BadRequest("Only CSV files are allowed")
    else
      match readCsv(request.value.content)
      case Raised(reason) => ErrorReply(500, "Analysis failed", Some(reason))
      case Parsed(t) =>
        if IsEmpty(t) then BadRequest("Uploaded CSV file is empty")
        else
          Success(Payload(
            shape := [t.rows, t.cols],
            columns := t.columnNames,
            eda := Eda.BasicEda(t),
            dataTypes := t.dataTypes,
            correlation := Correlation(t),
            aiInsights := GenerateInsights(t, ai)))
  }
}
