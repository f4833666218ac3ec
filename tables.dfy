/**
 * Tables as the program holds them: a list of column names and a list of
 * rows, each row a map from column name to an optional text (`None` for an
 * empty cell, which pandas holds as NaN). Row labels are the positions
 * 0, 1, 2, ... of a freshly loaded sheet.
 */
module Tables {
  import opened Wrappers

  type Cell = Option<string>
  type Row = map<string, Cell>

  /** The helper column the matcher adds to both tables. */
  const KeyColumn: string := "_KEY_"

  predicate Distinct(cols: seq<string>) {
    forall i, j :: 0 <= i < j < |cols| ==> cols[i] != cols[j]
  }

  /** Every row has exactly the table's columns. */
  ghost predicate WellFormed(columns: seq<string>, rows: seq<Row>) {
    Distinct(columns) && forall i, c :: 0 <= i < |rows| ==> (c in rows[i] <==> c in columns)
  }

  /** `row.get(col)`: the cell, or `None` for a column the row lacks. */
  function Get(row: Row, col: string): Cell {
    if col in row then row[col] else None
  }

  /** `str(v)` of a cell of a table read with `dtype=str`: an empty cell
      holds NaN, and `str(nan)` is "nan". */
  function CellStr(v: Cell): string {
    match v
    case None => "nan"
    case Some(s) => s
  }

  /** `"" if row.get(col) is None else str(row.get(col))`: "" for a column
      the row lacks, "nan" for an empty cell. */
  function ItemText(row: Row, col: string): string {
    if col in row then CellStr(row[col]) else []
  }

  /** The columns other than `col`, in order. */
  function Without(columns: seq<string>, col: string): (r: seq<string>)
    ensures forall c :: c in r <==> c in columns && c != col
    ensures |r| <= |columns|
  {
    if columns == [] then []
    else (if columns[0] == col then [] else [columns[0]]) + Without(columns[1..], col)
  }

  lemma {:induction false} WithoutKeepsDistinct(columns: seq<string>, col: string)
    requires Distinct(columns)
    ensures Distinct(Without(columns, col))
  {
    if columns != [] {
      WithoutKeepsDistinct(columns[1..], col);
      assert columns[0] !in columns[1..];
    }
  }

  /** How many columns the upper of two stacked views shows. */
  const ViewWidth: nat := 20

  /** Columns split between the upper view (the first twenty) and the lower
      view (the rest). */
  function SplitView(cols: seq<string>): (r: (seq<string>, seq<string>))
    ensures r.0 + r.1 == cols
    ensures |r.0| <= ViewWidth && (r.1 != [] ==> |r.0| == ViewWidth)
  {
    if |cols| <= ViewWidth then (cols, []) else (cols[..ViewWidth], cols[ViewWidth..])
  }

  /** A pandas DataFrame whose cells the program writes in place. */
  class DataFrame {
    var columns: seq<string>
    var rows: seq<Row>

    ghost predicate Valid()
      reads this
    {
      WellFormed(columns, rows)
    }

    constructor(columns: seq<string>, rows: seq<Row>)
      requires WellFormed(columns, rows)
      ensures Valid() && this.columns == columns && this.rows == rows
    {
      this.columns := columns;
      this.rows := rows;
    }

    /** `df.at[r, col]`. */
    function At(r: nat, col: string): Cell
      reads this
      requires r < |rows|
    {
      Get(rows[r], col)
    }

    /** `df[name] = values`: overwrites the column, or appends it when new. */
    method SetColumn(name: string, values: seq<Cell>)
      requires Valid() && |values| == |rows|
      modifies this
      ensures Valid()
      ensures columns == if name in old(columns) then old(columns) else old(columns) + [name]
      ensures |rows| == |old(rows)|
      ensures forall i :: 0 <= i < |rows| ==> rows[i] == old(rows[i])[name := values[i]]
    {
      if name !in columns {
        columns := columns + [name];
      }
      var old_rows := rows;
      rows := seq(|old_rows|, i requires 0 <= i < |old_rows| => old_rows[i][name := values[i]]);
    }

    /** `df.at[r, col] = v` on an existing column. */
    method SetCell(r: nat, col: string, v: Cell)
      requires Valid() && r < |rows| && col in columns
      modifies this
      ensures Valid() && columns == old(columns)
      ensures rows == old(rows)[r := old(rows[r])[col := v]]
    {
      rows := rows[r := rows[r][col := v]];
    }
  }
}
