/** The slice of a pandas DataFrame's behaviour that the prediction page uses:
    a table of named columns over rows, selecting a list of columns
    (`df[cols]`), filling missing cells (`fillna`), keeping the first rows
    (`head`) and setting one column in place (`df[name] = values`). */
module Frames {

  datatype Option<T> = None | Some(value: T)

  /** One cell: a missing value (pandas' NaN), a number or a string. */
  datatype Cell = Missing | Num(v: real) | Text(s: string)

  /** A table: its column names in order, and its rows, each mapping every
      column name to that row's cell. */
  datatype Table = Table(columns: seq<string>, rows: seq<map<string, Cell>>)

  predicate Distinct(names: seq<string>) {
    forall i, j :: 0 <= i < j < |names| ==> names[i] != names[j]
  }

  /** What every DataFrame the page handles satisfies: column names are
      unique and every row has exactly the table's columns. */
  predicate Wf(t: Table) {
    && Distinct(t.columns)
    && forall i :: 0 <= i < |t.rows| ==> t.rows[i].Keys == set c | c in t.columns
  }

  /** `t[cols]`: the table restricted to `cols`, in the order of `cols`;
      pandas raises a KeyError (here None) when one of them is not a column. */
  function Project(t: Table, cols: seq<string>): (r: Option<Table>)
    requires Wf(t)
    ensures r.Some? <==> forall c :: c in cols ==> c in t.columns
    ensures r.Some? ==> r.value.columns == cols && |r.value.rows| == |t.rows|
    ensures r.Some? ==> forall i, c :: 0 <= i < |t.rows| && c in cols ==>
      c in r.value.rows[i] && r.value.rows[i][c] == t.rows[i][c]
    ensures r.Some? && Distinct(cols) ==> Wf(r.value)
  {
    if forall c :: c in cols ==> c in t.columns then
      Some(Table(cols, seq(|t.rows|, i requires 0 <= i < |t.rows| =>
        map c | c in cols :: t.rows[i][c])))
    else
      None
  }

  function Fill(x: Cell, fill: Cell): Cell {
    if x == Missing then fill else x
  }

  /** `t.fillna(fill)`: every missing cell becomes `fill`, every other cell
      keeps its value; no row or column is added or dropped. */
  function FillNa(t: Table, fill: Cell): (r: Table)
    ensures r.columns == t.columns && |r.rows| == |t.rows|
    ensures forall i :: 0 <= i < |t.rows| ==> r.rows[i].Keys == t.rows[i].Keys
    ensures forall i, c :: 0 <= i < |t.rows| && c in t.rows[i] && t.rows[i][c] == Missing ==>
      r.rows[i][c] == fill
    ensures forall i, c :: 0 <= i < |t.rows| && c in t.rows[i] && t.rows[i][c] != Missing ==>
      r.rows[i][c] == t.rows[i][c]
    ensures Wf(t) ==> Wf(r)
  {
    Table(t.columns, seq(|t.rows|, i requires 0 <= i < |t.rows| =>
      map c | c in t.rows[i] :: Fill(t.rows[i][c], fill)))
  }

  function Min(a: int, b: int): int {
    if a <= b then a else b
  }

  /** `t.head(n)`: the first min(n, row count) rows, in their order. */
  function Head(t: Table, n: nat): (r: Table)
    ensures r.columns == t.columns
    ensures |r.rows| == Min(n, |t.rows|)
    ensures forall i :: 0 <= i < |r.rows| ==> r.rows[i] == t.rows[i]
    ensures Wf(t) ==> Wf(r)
  {
    Table(t.columns, t.rows[..Min(n, |t.rows|)])
  }

  /** Whether pandas accepts `t[name] = values`: one value per row, or any
      number of values on a frame without rows, which pandas first grows to
      that many rows. */
  predicate Assignable(t: Table, values: seq<Cell>) {
    |values| == |t.rows| || |t.rows| == 0
  }

  /** The rows `t[name] = values` starts from: the table's own rows, or, for
      a frame without rows, one row of missing cells per value. */
  function BaseRows(t: Table, n: nat): seq<map<string, Cell>> {
    if |t.rows| == 0 then seq(n, i => map c | c in t.columns :: Missing) else t.rows
  }

  /** The table after `t[name] = values`: an existing column keeps its
      position and gets the new cells, a new column is appended last; every
      other column and cell is left as it was. A frame without rows first
      gets one row per value, with every other column missing. */
  function WithColumn(t: Table, name: string, values: seq<Cell>): (r: Table)
    requires Assignable(t, values)
    ensures |r.rows| == |values|
    ensures name in r.columns
    ensures name in t.columns ==> r.columns == t.columns
    ensures name !in t.columns ==> r.columns == t.columns + [name]
    ensures forall i :: 0 <= i < |values| ==> name in r.rows[i] && r.rows[i][name] == values[i]
    ensures forall i, c :: 0 <= i < |t.rows| && c != name ==>
      (c in r.rows[i] <==> c in t.rows[i])
    ensures forall i, c :: 0 <= i < |t.rows| && c != name && c in t.rows[i] ==>
      r.rows[i][c] == t.rows[i][c]
    ensures |t.rows| == 0 ==> forall i, c :: 0 <= i < |values| && c != name ==>
      (c in r.rows[i] <==> c in t.columns) && (c in r.rows[i] ==> r.rows[i][c] == Missing)
    ensures Wf(t) ==> Wf(r)
  {
    var columns := if name in t.columns then t.columns else t.columns + [name];
    var base := BaseRows(t, |values|);
    Table(columns, seq(|values|, i requires 0 <= i < |values| => base[i][name := values[i]]))
  }

  /** A DataFrame as an object whose columns are changed in place. */
  class DataFrame {
    var columns: seq<string>
    var rows: seq<map<string, Cell>>

    function Value(): Table
      reads this
    {
      Table(columns, rows)
    }

    predicate Valid()
      reads this
    {
      Wf(Value())
    }

    /** A frame holding an already parsed table. */
    constructor (t: Table)
      requires Wf(t)
      ensures Valid() && Value() == t
    {
      columns := t.columns;
      rows := t.rows;
    }

    /** `df[name] = values`. On a frame with rows, pandas raises a
        ValueError, leaving the frame as it was, when the number of values
        differs from the row count. */
    method SetColumn(name: string, values: seq<Cell>) returns (ok: bool)
      requires Valid()
      modifies this
      ensures Valid()
      ensures ok <==> Assignable(old(Value()), values)
      ensures ok ==> Value() == WithColumn(old(Value()), name, values)
      ensures !ok ==> Value() == old(Value())
    {
      ok := Assignable(Value(), values);
      if ok {
        var t := WithColumn(Value(), name, values);
        columns, rows := t.columns, t.rows;
      }
    }
  }
}
