/**
 What the upload endpoint of app.py promises, stated over the model in
 module App and proved: which names `allowed_file` accepts, the order of the
 error replies, the shape of a success, and what the insight text carries.
 */
module AppProperties {
  import opened Wrappers
  import opened PyStr
  import opened DataFrame
  import opened App

  // ---------- allowed_file ----------

  /** `e` spells "csv" in any mix of upper and lower case. */
  predicate IsCsvSpelling(e: string)
  {
    |e| == 3 && e[0] in "cC" && e[1] in "sS" && e[2] in "vV"
  }

  /** Reference definition: the name ends with `.` followed by "csv" in any case. */
  predicate EndsWithCsvExtension(f: string)
  {
    |f| >= 4 && f[|f| - 4] == '.' && IsCsvSpelling(f[|f| - 3..])
  }

  lemma LowerIsCsv(e: string)
    ensures Lower(e) == "csv" <==> IsCsvSpelling(e)
  {
  }

  /** In `p + "." + e` with no `.` in `e`, the last `.` is the one just before `e`. */
  lemma {:induction false} LastDotBeforeSuffix(p: string, e: string)
    requires '.' !in e
    ensures LastIndexOf(p + "." + e, '.') == Some(|p|)
  {
    if e != [] {
      var s := p + "." + e;
      assert s[|s| - 1] == e[|e| - 1];
      assert s[..|s| - 1] == p + "." + e[..|e| - 1];
      LastDotBeforeSuffix(p, e[..|e| - 1]);
    }
  }

  /** Only the text after the last `.` decides, and it decides case-insensitively. */
  lemma LastDotDecides(p: string, e: string)
    requires '.' !in e
    ensures AllowedFile(p + "." + e) <==> IsCsvSpelling(e)
  {
    var f := p + "." + e;
    LastDotBeforeSuffix(p, e);
    assert f[..|p|] == p && f[|p| + 1..] == e;
    assert RSplitOnce(f, '.') == [p, e];
    LowerIsCsv(e);
  }

  /** `allowed_file` accepts exactly the names ending in ".csv", in any case. */
  lemma AllowedFileIffCsvSuffix(f: string)
    ensures AllowedFile(f) <==> EndsWithCsvExtension(f)
  {
    if EndsWithCsvExtension(f) {
      var q, x := f[..|f| - 4], f[|f| - 3..];
      assert f == q + "." + x;
      assert '.' !in x by {
        assert x == [x[0], x[1], x[2]];
      }
      LastDotDecides(q, x);
    }
    if AllowedFile(f) {
      var parts := RSplitOnce(f, '.');
      LastDotDecides(parts[0], parts[1]);
      assert f[|f| - 3..] == parts[1];
    }
  }

  /** A name with no `.` at all is refused. */
  lemma NoDotRejected(f: string)
    requires '.' !in f
    ensures !AllowedFile(f)
  {
  }

  /** Lower-casing a name never changes whether it is accepted. */
  lemma CaseInsensitive(f: string)
    ensures AllowedFile(Lower(f)) <==> AllowedFile(f)
  {
    AllowedFileIffCsvSuffix(f);
    AllowedFileIffCsvSuffix(Lower(f));
    if |f| >= 4 {
      assert Lower(f)[|f| - 3..] == Lower(f[|f| - 3..]);
      LowerIsCsv(f[|f| - 3..]);
      LowerIsCsv(Lower(f[|f| - 3..]));
      LowerIdempotent(f[|f| - 3..]);
    }
  }

  /** "data.csv", "data.CSV", "data.Csv", "a.txt.csv" and ".csv" are accepted. */
  lemma SampleNamesAccepted(f: string)
    requires f in ["data.csv", "data.CSV", "data.Csv", "a.txt.csv", ".csv"]
    ensures AllowedFile(f)
  {
    if f == "a.txt.csv" {
      assert f == "a.txt" + "." + "csv";
      LastDotDecides("a.txt", "csv");
    } else if f == ".csv" {
      assert f == "" + "." + "csv";
      LastDotDecides("", "csv");
    } else {
      assert f == "data" + "." + f[5..];
      LastDotDecides("data", f[5..]);
    }
  }

  /** "a.csv.txt", "a.csv." (empty suffix), "csv" and "" are refused. */
  lemma SampleNamesRejected(f: string)
    requires f in ["a.csv.txt", "a.csv.", "csv", ""]
    ensures !AllowedFile(f)
  {
  }

  // ---------- The validation ladder ----------

  /** Without a `file` field the reply is the same whatever else holds. */
  lemma NoFileField(readCsv: seq<bv8> -> ParseOutcome, ai: AiClient)
    ensures Analyze(None, readCsv, ai) == ErrorReply(400, "No file uploaded", None)
  {
  }

  /** An empty file name is reported as such, although `allowed_file` would refuse it too. */
  lemma EmptyFilename(u: Upload, readCsv: seq<bv8> -> ParseOutcome, ai: AiClient)
    requires u.filename == ""
    ensures Analyze(Some(u), readCsv, ai) == ErrorReply(400, "No file selected", None)
    ensures !AllowedFile(u.filename)
  {
  }

  /**
   A named file with the wrong extension is refused before the CSV is read:
   the reply is the same for every reader and every AI setting.
   */
  lemma WrongExtensionNeverParsed(u: Upload, read1: seq<bv8> -> ParseOutcome, read2: seq<bv8> -> ParseOutcome, ai1: AiClient, ai2: AiClient)
    requires u.filename != "" && !EndsWithCsvExtension(u.filename)
    ensures Analyze(Some(u), read1, ai1) == Analyze(Some(u), read2, ai2) == ErrorReply(400, "Only CSV files are allowed", None)
  {
  }

  /** An exception while reading or analysing the CSV gives the 500 reply with its text. */
  lemma ReadFailure(u: Upload, readCsv: seq<bv8> -> ParseOutcome, ai: AiClient)
    requires EndsWithCsvExtension(u.filename) && readCsv(u.content).Raised?
    ensures Analyze(Some(u), readCsv, ai) == ErrorReply(500, "Analysis failed", Some(readCsv(u.content).reason))
  {
    AllowedFileIffCsvSuffix(u.filename);
  }

  /** A CSV that parses to a table with no rows (or no columns) is refused. */
  lemma EmptyTableRejected(u: Upload, readCsv: seq<bv8> -> ParseOutcome, ai: AiClient)
    requires EndsWithCsvExtension(u.filename)
    requires readCsv(u.content).Parsed? && readCsv(u.content).table.rows == 0
    ensures Analyze(Some(u), readCsv, ai) == ErrorReply(400, "Uploaded CSV file is empty", None)
  {
    AllowedFileIffCsvSuffix(u.filename);
  }

  /** Each error message names the first check that failed, and every check before it passed. */
  lemma ErrorNamesFirstFailure(request: Option<Upload>, readCsv: seq<bv8> -> ParseOutcome, ai: AiClient)
    ensures var r := Analyze(request, readCsv, ai);
      && (r == ErrorReply(400, "No file uploaded", None) <==> request.None?)
      && (r == ErrorReply(400, "No file selected", None) <==> request.Some? && request.value.filename == "")
      && (r == ErrorReply(400, "Only CSV files are allowed", None) <==>
            request.Some? && request.value.filename != "" && !EndsWithCsvExtension(request.value.filename))
      && (r == ErrorReply(400, "Uploaded CSV file is empty", None) <==>
            request.Some? && EndsWithCsvExtension(request.value.filename)
            && readCsv(request.value.content).Parsed? && IsEmpty(readCsv(request.value.content).table))
  {
    if request.Some? {
      AllowedFileIffCsvSuffix(request.value.filename);
    }
  }

  /** The request succeeds exactly when every check passes. */
  lemma SuccessIff(request: Option<Upload>, readCsv: seq<bv8> -> ParseOutcome, ai: AiClient)
    ensures Analyze(request, readCsv, ai).Success? <==>
      && request.Some?
      && EndsWithCsvExtension(request.value.filename)
      && readCsv(request.value.content).Parsed?
      && !IsEmpty(readCsv(request.value.content).table)
  {
    if request.Some? {
      AllowedFileIffCsvSuffix(request.value.filename);
    }
  }

  // ---------- The success payload ----------

  /**
   On success the payload reports the table's shape as a positive pair,
   lists its columns in order, agrees with its own `eda` block, carries a
   correlation block only when two or more numeric columns exist, passes on
   pandas' types and missing counts, and with AI off carries the fallback
   text, whose summary gives back the same shape.
   */
  lemma SuccessPayload(u: Upload, readCsv: seq<bv8> -> ParseOutcome, ai: AiClient, t: Table)
    requires EndsWithCsvExtension(u.filename)
    requires readCsv(u.content) == Parsed(t) && !IsEmpty(t)
    ensures Analyze(Some(u), readCsv, ai).Success?
    ensures var p := Analyze(Some(u), readCsv, ai).payload;
      && p.shape == [t.rows, t.cols] && p.shape[0] > 0 && p.shape[1] > 0
      && p.columns == t.columnNames
      && (WellFormed(t) ==> |p.columns| == p.shape[1])
      && p.eda.rows == p.shape[0] && p.eda.columns == p.shape[1] && p.eda.columnNames == p.columns
      && (t.numericColumnCount < 2 ==> p.correlation == map[])
      && (t.numericColumnCount >= 2 ==> p.correlation == t.correlation)
      && p.dataTypes == t.dataTypes
      && p.eda.missingValues == t.missingValues
      && p.aiInsights == GenerateInsights(t, ai)
      && (!ai.enabled ==> p.aiInsights == FallbackHeader + Summary(t))
      && (!ai.enabled ==> ReadShape(p.aiInsights[|FallbackHeader|..]) == Some((p.shape[0], p.shape[1])))
  {
    AllowedFileIffCsvSuffix(u.filename);
    if !ai.enabled {
      FallbackInsights(t, ai, ai);
    }
  }

  // ---------- The insight text ----------

  /**
   Reads `marker` followed by a decimal numeral off the front of `s`, giving
   the number and the text after it.
   */
  function ReadNumberAfter(marker: string, s: string): Option<(nat, string)>
  {
    if !(marker <= s) then None
    else
      var digits := DigitPrefix(s[|marker|..]);
      if digits == [] then None
      else Some((DecimalValue(digits), s[|marker| + |digits|..]))
  }

  /** Reads `first` and a numeral, then `second` and a numeral, off the front of `s`. */
  function ReadPair(first: string, second: string, s: string): Option<(nat, nat)>
  {
    var x := ReadNumberAfter(first, s);
    if x.None? then None
    else
      var y := ReadNumberAfter(second, x.value.1);
      if y.None? then None else Some((x.value.0, y.value.0))
  }

  /**
   Reference reader for the summary: reads the numbers after "Rows: " and
   "Columns: " back, or gives `None` when the text is not laid out that way.
   */
  function ReadShape(s: string): Option<(nat, nat)>
  {
    ReadPair(RowsLabel, ColumnsLabel, s)
  }

  lemma ReadNumberAfterOf(marker: string, d: string, tail: string)
    requires d != [] && AllDigits(d)
    requires tail == [] || !IsDigit(tail[0])
    ensures ReadNumberAfter(marker, marker + d + tail) == Some((DecimalValue(d), tail))
  {
    var s := marker + d + tail;
    assert s[|marker|..] == d + tail;
    DigitPrefixStopsAtNonDigit(d, tail);
    assert s[|marker| + |d|..] == tail;
  }

  lemma ReadPairOfLayout(first: string, second: string, a: string, b: string, tail: string)
    requires second != [] && !IsDigit(second[0])
    requires a != [] && AllDigits(a) && b != [] && AllDigits(b)
    requires tail == [] || !IsDigit(tail[0])
    ensures ReadPair(first, second, first + a + (second + b + tail)) == Some((DecimalValue(a), DecimalValue(b)))
  {
    ReadNumberAfterOf(first, a, second + b + tail);
    ReadNumberAfterOf(second, b, tail);
  }

  /** Regrouping of a concatenation, kept apart so that it is done on plain strings. */
  lemma Regroup(r: string, a: string, c: string, b: string, rest: string, suffix: string)
    ensures r + a + c + b + rest + suffix == r + a + (c + b + (rest + suffix))
  {
  }

  /** The summary (and whatever follows it) records the table's shape faithfully. */
  lemma SummaryRecordsShape(t: Table, suffix: string)
    ensures ReadShape(Summary(t) + suffix) == Some((t.rows, t.cols))
  {
    var a, b := NatToString(t.rows), NatToString(t.cols);
    var rest := TypesLabel + t.dtypesText + MissingLabel + t.missingText + "\n";
    var s := Summary(t) + suffix;
    assert s == RowsLabel + a + (ColumnsLabel + b + (rest + suffix)) by {
      Regroup(RowsLabel, a, ColumnsLabel, b, rest, suffix);
    }
    assert ReadPair(RowsLabel, ColumnsLabel, s) == Some((DecimalValue(a), DecimalValue(b))) by {
      assert ColumnsLabel[0] == '\n' && TypesLabel[0] == '\n';
      ReadPairOfLayout(RowsLabel, ColumnsLabel, a, b, rest + suffix);
    }
    DecimalRoundTrip(t.rows);
    DecimalRoundTrip(t.cols);
  }

  /**
   With AI off the insight text is the fixed header followed by the summary,
   whatever the Gemini client would have said, and the table's shape can be
   read back from it.
   */
  lemma FallbackInsights(t: Table, ai: AiClient, other: AiClient)
    requires !ai.enabled && !other.enabled
    ensures var text := GenerateInsights(t, ai);
      && text == GenerateInsights(t, other)
      && |text| > |FallbackHeader|
      && text[..|FallbackHeader|] == FallbackHeader
      && ReadShape(text[|FallbackHeader|..]) == Some((t.rows, t.cols))
  {
    var text := GenerateInsights(t, ai);
    assert text[|FallbackHeader|..] == Summary(t) + "";
    SummaryRecordsShape(t, "");
  }

  /** The prompt sent to Gemini carries the table's shape right after the fixed instruction. */
  lemma PromptRecordsShape(t: Table)
    ensures ReadShape(Prompt(Summary(t))[|PromptIntro|..]) == Some((t.rows, t.cols))
  {
    assert Prompt(Summary(t))[|PromptIntro|..] == Summary(t) + "\n";
    SummaryRecordsShape(t, "\n");
  }

  /**
   A failed Gemini call is told apart from the AI-off text: it starts with
   the failure note and never with the fallback header (with which the
   AI-off text always starts, by `FallbackInsights`), and the exception's
   text reads back after the note.
   */
  lemma InsightsShowTheirSource(t: Table, ai: AiClient)
    ensures var text := GenerateInsights(t, ai);
      && (ai.enabled && ai.ask(Prompt(Summary(t))).Failed? ==>
            && GeminiFailurePrefix <= text
            && !(FallbackHeader <= text)
            && text[|GeminiFailurePrefix|..] == ai.ask(Prompt(Summary(t))).reason)
  {
    var text := GenerateInsights(t, ai);
    if ai.enabled && ai.ask(Prompt(Summary(t))).Failed? {
      assert text[0] == 'A' != FallbackHeader[0];
    }
  }

  /**
   When the client comes from the module's import, a missing or empty
   `GEMINI_API_KEY` (or a failed SDK import) always yields the fallback text.
   */
  lemma NoKeyMeansFallback(t: Table, ai: AiClient, sdkImported: bool, apiKey: Option<string>, clientCreated: bool)
    requires ImportedClient(ai, sdkImported, apiKey, clientCreated)
    requires !sdkImported || apiKey.None? || apiKey.value == ""
    ensures !ai.enabled
    ensures GenerateInsights(t, ai)[..|FallbackHeader|] == FallbackHeader
    ensures ReadShape(GenerateInsights(t, ai)[|FallbackHeader|..]) == Some((t.rows, t.cols))
  {
    FallbackInsights(t, ai, ai);
  }
}
