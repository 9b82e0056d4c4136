/** Values shared by the dashboard's query layer, its chart helpers and the CSV loader. */
module Base {

  datatype Option<+T> = None | Some(value: T)

  /** A Python float: NaN or a finite value. */
  datatype PyFloat = NaN | Finite(val: real)

  /** One cell of a pandas DataFrame returned by the warehouse:
      an integer, a float (possibly NaN), or the missing value pd.NA. */
  datatype Cell = IntCell(i: int) | FloatCell(x: PyFloat) | NullCell

  /** One DataFrame row, keyed by column name. */
  type Row = map<string, Cell>

  /** What one call of the warehouse's `execute_query` does: raise, or return a table. */
  datatype QueryOutcome = Raised | Table(rows: seq<Row>)

  /** The warehouse, as seen by the query layer: SQL text in, outcome out. */
  type Warehouse = string -> QueryOutcome

  function Abs(x: real): (r: real)
    ensures r >= 0.0 && (r == x || r == -x)
  {
    if x < 0.0 then -x else x
  }

  /** Python's `int(x)` on a float: truncation toward zero. */
  function Truncate(x: real): (r: int)
    ensures Abs(r as real) <= Abs(x) < Abs(r as real) + 1.0
    ensures (x >= 0.0 ==> r >= 0) && (x <= 0.0 ==> r <= 0)
  {
    if x >= 0.0 then x.Floor else -((-x).Floor)
  }
}
