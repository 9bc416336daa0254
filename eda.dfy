/** `basic_eda` of datalens_utils/eda.py: the frame's shape, names and missing-value counts. */
module Eda {
  import opened DataFrame

  datatype Report = Report(
    rows: nat,
    columns: nat,
    columnNames: seq<string>,
    missingValues: map<string, nat>)

  function BasicEda(t: Table): Report
  {
    Report(t.rows, t.cols, t.columnNames, t.missingValues)
  }
}
