# Datalens upload endpoint — a Dafny model

Datalens is a small Flask server that accepts an uploaded CSV file, runs a
basic exploratory analysis over it with pandas, and answers with a JSON
summary plus free-text "AI insights" (from Google Gemini when it is
configured, otherwise a fixed fallback text). This project models the
server's upload-acceptance path in `app.py` as pure Dafny functions and
proves what that path promises.

Modules, one per source concern:

- `Wrappers` (`wrappers.dfy`): the `Option` datatype.
- `PyStr` (`pystr.dfy`): the Python string built-ins the server uses —
  `s.rsplit(sep, 1)`, `s.lower()` and `str(n)` — with the reader
  `DecimalValue` that inverts `str(n)`.
- `DataFrame` (`dataframe.dfy`): what the server reads off a pandas
  DataFrame (shape, column names, dtypes, missing counts, number of numeric
  columns, correlation dictionary, and the two `to_string()` renderings),
  and `df.empty`.
- `Eda` (`eda.dfy`): `basic_eda` of `datalens_utils/eda.py`.
- `App` (`app.dfy`): `allowed_file`, the `AI_ENABLED` switch set at import,
  the dataset summary, the fallback text, the Gemini prompt,
  `generate_ai_insights`, and `analyze` with its validation ladder and
  success payload.
- `AppProperties` (`app_properties.dfy`): the properties, as lemmas.

How the outside world enters the model:

- The request is `Option<Upload>`: `None` when the form has no `file`
  field, otherwise the part's file name and bytes.
- `pd.read_csv` and every pandas step after it are one parameter
  `readCsv: seq<bv8> -> ParseOutcome`: a `Table`, or an exception's text,
  which the catch-all handler turns into the 500 reply.
- The module globals `AI_ENABLED` and `client` are one parameter `AiClient`.
  Its `ask` field stands for `client.models.generate_content` on a prompt
  and answers with a text or an exception's text.

Points where the model follows the code rather than a looser reading:

- `df.empty` is true when EITHER axis has length 0, so a table with rows but
  no columns is also refused as "Uploaded CSV file is empty".
- `allowed_file` takes the text after the LAST `.`. The lemma
  `AllowedFileIffCsvSuffix` shows this is the same as "the name ends in
  `.csv` in any mix of case". So `.csv` alone is accepted, and `a.csv.` is
  refused.
- The fallback header in the repository's `app.py` is stored already
  mis-decoded: the UTF-8 bytes of the warning sign and of the bullet were
  read as Windows-1252 and saved again. The Python string therefore starts
  with `âš` and a no-break space, not with a warning sign, and each bullet is
  `â€¢`. `App.FallbackHeader` holds those characters exactly.

## Model

| member | source | states |
|---|---|---|
| `PyStr.RSplitOnce` | app.py:39 | `rsplit(".", 1)` gives the whole name when there is no separator, and otherwise the parts before and after the last separator, which put back together give the name; the second part holds no separator |
| `PyStr.Lower` | app.py:39 | `lower()` keeps the length and lower-cases each character |
| `PyStr.NatToString` | app.py:51-52 | `str(n)` of a shape count is a non-empty string of decimal digits with no leading zero |
| `PyStr.DecimalRoundTrip` | app.py:51-52 | reading back the numeral `str(n)` gives `n` |
| `AppProperties.LowerIsCsv` | app.py:33-39 | about `PyStr.Lower` and `App.AllowedExtensions`: the lower-cased suffix equals `csv` exactly when it is c/C, s/S, v/V |
| `AppProperties.LastDotBeforeSuffix` | app.py:39 | about `PyStr.LastIndexOf`, which `PyStr.RSplitOnce` uses: in `p + "." + e` with no dot in `e`, the last dot is the one at position `|p|` |
| `AppProperties.LastDotDecides` | app.py:39 | about `App.AllowedFile`: `allowed_file(p + "." + e)` with no dot in `e` holds exactly when `e` spells csv in some case, whatever `p` holds (dots included) |
| `AppProperties.AllowedFileIffCsvSuffix` | app.py:33-39 | about `App.AllowedFile`: `allowed_file` accepts exactly the names that end in `.` followed by csv in any case (both directions) |
| `AppProperties.NoDotRejected` | app.py:39 | about `App.AllowedFile`: a name with no `.` is refused |
| `AppProperties.CaseInsensitive` | app.py:39 | about `App.AllowedFile`: lower-casing a name never changes whether it is accepted |
| `AppProperties.SampleNamesAccepted` | app.py:38-39 | about `App.AllowedFile`: `data.csv`, `data.CSV`, `data.Csv`, `a.txt.csv` and `.csv` are accepted |
| `AppProperties.SampleNamesRejected` | app.py:38-39 | about `App.AllowedFile`: `a.csv.txt`, `a.csv.`, `csv` and the empty name are refused |
| `App.AiEnabledAtImport` | app.py:11-20 | AI is on only if the SDK imported and the API key is set and non-empty |
| `App.Analyze` | app.py:100-163 | a success only comes from a present file with an accepted name; every error reply is a 400 without details or the 500 "Analysis failed" |
| `AppProperties.NoFileField` | app.py:104-105 | about `App.Analyze`: with no `file` field the reply is 400 "No file uploaded", whatever the reader and the AI setting |
| `AppProperties.EmptyFilename` | app.py:109-113 | about `App.Analyze` and `App.AllowedFile`: an empty name gives 400 "No file selected", although `allowed_file` would refuse it too |
| `AppProperties.WrongExtensionNeverParsed` | app.py:112-120 | about `App.Analyze`: a non-empty name without a csv extension gives 400 "Only CSV files are allowed" and the reply is the same for every CSV reader and AI setting, so the file is never read |
| `AppProperties.ReadFailure` | app.py:158-163 | about `App.Analyze`: an exception while reading the CSV gives 500 "Analysis failed" with the exception's text as details |
| `AppProperties.EmptyTableRejected` | app.py:122-123 | about `App.Analyze` and `DataFrame.IsEmpty`: a table with zero rows gives 400 "Uploaded CSV file is empty" |
| `AppProperties.ErrorNamesFirstFailure` | app.py:104-123 | about `App.Analyze` and `DataFrame.IsEmpty`: each 400 message holds exactly when its check is the first one to fail, in the order: file field, empty name, extension, empty table (both directions) |
| `AppProperties.SuccessIff` | app.py:104-156 | about `App.Analyze` and `DataFrame.IsEmpty`: the reply is a success exactly when a file is present, its name ends in a csv extension, the CSV parses and the table is not empty |
| `AppProperties.SuccessPayload` | app.py:130-156 | about `App.Analyze`, `App.Correlation`, `Eda.BasicEda` and `App.GenerateInsights`: on success `shape` is `[rows, cols]` with both positive; `columns` lists the names in order (as many as `shape[1]` for a well-formed table); the `eda` block agrees with `shape` and `columns` and carries pandas' missing counts; `data_types` is pandas' type map; `correlation` is empty with fewer than two numeric columns and pandas' matrix otherwise; `ai_insights` is `generate_ai_insights` of the table, and with AI off it is the fallback header followed by the summary, from which the same shape reads back |
| `AppProperties.SummaryRecordsShape` | app.py:48-61 | about `App.Summary`, read by `AppProperties.ReadShape`: the row and column counts can be read back from the dataset summary, whatever follows it |
| `AppProperties.FallbackInsights` | app.py:63-72 | about `App.GenerateInsights`: with AI off the insight text is the fixed header followed by a summary from which the table's shape reads back, and it does not depend on the Gemini client |
| `App.Prompt` | app.py:75-81 | the prompt holds the summary unchanged right after the fixed instruction |
| `AppProperties.PromptRecordsShape` | app.py:75-81 | about `App.Prompt` and `App.Summary`: the table's shape reads back from the prompt sent to Gemini |
| `AppProperties.InsightsShowTheirSource` | app.py:63-89 | about `App.GenerateInsights`: after a failed Gemini call the text starts with "AI insight generation failed.\nReason: " and never with the fallback header (which starts every AI-off text, by `FallbackInsights`), and the exception's text reads back from what follows |
| `AppProperties.NoKeyMeansFallback` | app.py:11-20 | about `App.ImportedClient`, `App.AiEnabledAtImport` and `App.GenerateInsights`: for the client the import leaves, a failed SDK import or a missing or empty `GEMINI_API_KEY` turns AI off, and the insight text is then the fallback header followed by a summary from which the table's shape reads back |

## Left out

- Flask plumbing: routing, the `/` page (`render_template`), CORS, `jsonify`'s serialisation and `app.run` (app.py:30-31, 95-97, 166-170). A success is taken to carry status 200.
- pandas itself: `read_csv` with latin-1 decoding, `dtypes`, `isnull().sum()`, `select_dtypes`, and `corr().fillna(0).round(3)`. Their results are given values of `DataFrame.Table`, and any exception from these steps is the `Raised` outcome of `readCsv`.
- The Gemini network call: it is the `ask` parameter. Its answer is taken to be a string, so a `None` `response.text` is not modelled.
- The outer `try`/`except` around `generate_ai_insights` (app.py:143-146): only an exception while pandas renders the summary could reach it, and the model treats that rendering as total.
- All `print` logging, including the one in `basic_eda`.
- `datalens_utils/ai_insights.py`: `app.py` never calls it.
- PyStr.Lower: lower-cases ASCII letters only. Python's `str.lower` also maps non-ASCII letters, but no non-ASCII character lower-cases to `c`, `s` or `v`, so whether a name is accepted is unaffected.
- Several `file` parts in one form: the model keeps one, as `request.files["file"]` does (it takes the first).
- The browser dashboard that calls this endpoint (file-size limit, single-flight guard, markdown rendering, charts) is not part of this model: its source is not among the modelled files.
