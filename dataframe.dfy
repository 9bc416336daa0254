/**
 The parts of a pandas DataFrame that the server reads. pandas computes all
 of them; the model takes them as given values of one parsed table.
 */
module DataFrame {

  datatype Table = Table(
    rows: nat,                                    // df.shape[0]
    cols: nat,                                    // df.shape[1]
    columnNames: seq<string>,                     // list(df.columns), in order
    dataTypes: map<string, string>,               // df.dtypes.astype(str).to_dict()
    missingValues: map<string, nat>,              // df.isnull().sum().to_dict()
    numericColumnCount: nat,                      // df.select_dtypes(include=np.number).shape[1]
    correlation: map<string, map<string, real>>,  // numeric_df.corr().fillna(0).round(3).to_dict()
    dtypesText: string,                           // df.dtypes.to_string()
    missingText: string)                          // df.isnull().sum().to_string()

  /** What pandas guarantees of any frame: one name per column, numeric columns among them. */
  predicate WellFormed(t: Table)
  {
    |t.columnNames| == t.cols && t.numericColumnCount <= t.cols
  }

  /** `df.empty`: pandas calls a frame empty when either of its axes has length 0. */
  predicate IsEmpty(t: Table)
  {
    t.rows == 0 || t.cols == 0
  }

  /** What `pd.read_csv` does with the uploaded bytes: a table, or an exception with its text. */
  datatype ParseOutcome = Parsed(table: Table) | Raised(reason: string)
}
