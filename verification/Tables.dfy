/** Table rows as the data agent reads them. */
module Tables {
  import opened Options

  /** A value is what `str` and `float` make of it; no number means that `float` raises. */
  datatype Cell = Null | Value(text: string, number: Option<real>)

  type Row = map<string, Cell>

  /** `r.get(col) not in (None, "")`. */
  predicate Present(row: Row, col: string) {
    col in row && row[col] != Null && row[col].text != ""
  }

  /** `_to_float(r.get(col))`. */
  function ToFloat(row: Row, col: string): Option<real> {
    if col !in row || row[col] == Null then None else row[col].number
  }

  /** `str(r.get(col, ""))`. */
  function Label(row: Row, col: string): string {
    if col !in row then "" else if row[col] == Null then "None" else row[col].text
  }

  function Labels(rows: seq<Row>, col: string): (r: seq<string>)
    ensures |r| == |rows| && forall i :: 0 <= i < |rows| ==> r[i] == Label(rows[i], col)
  {
    seq(|rows|, i requires 0 <= i < |rows| => Label(rows[i], col))
  }
}
