/** A pandas DataFrame as this program uses it: named columns in order and rows of cells,
    one cell per column. Frames are objects: `copy`, `head`, `iloc` and boolean indexing
    give new frames, while assigning a column or the column labels changes the frame itself. */
module Frames {
  import opened Cells
  import Links
  import opened Masks

  type Row = seq<Cell>

  /** Every row has one cell per column. */
  ghost predicate Rectangular(columns: seq<string>, rows: seq<Row>) {
    forall i :: 0 <= i < |rows| ==> |rows[i]| == |columns|
  }

  /** No two columns carry the label `name`. For a label carried twice, `df[name]` gives a
      frame rather than a column, and neither `.str.contains` nor `.apply` works on it. */
  predicate AtMostOnce(columns: seq<string>, name: string) {
    forall i, j :: 0 <= i < j < |columns| && columns[i] == name ==> columns[j] != name
  }

  /** The position of the column `df[name]` addresses. */
  function IndexOf(columns: seq<string>, name: string): (k: nat)
    requires name in columns
    ensures k < |columns| && columns[k] == name
    ensures forall j :: 0 <= j < k ==> columns[j] != name
  {
    if columns[0] == name then 0 else 1 + IndexOf(columns[1..], name)
  }

  /** Each row with its cell at `k` replaced by the text the link transform gives it
      (`display_df[col].apply(make_clickable_link_text)` assigned back to the column). */
  function LinkColumn(rows: seq<Row>, k: nat): (r: seq<Row>)
    requires forall i :: 0 <= i < |rows| ==> k < |rows[i]|
    ensures |r| == |rows|
    ensures forall i :: 0 <= i < |rows| ==>
              |r[i]| == |rows[i]|
              && r[i][k] == Present(Links.MakeClickableLinkText(rows[i][k]))
              && (forall j :: 0 <= j < |rows[i]| && j != k ==> r[i][j] == rows[i][j])
  {
    seq(|rows|, i requires 0 <= i < |rows| =>
      rows[i][k := Present(Links.MakeClickableLinkText(rows[i][k]))])
  }

  /** The cells of one row at the given positions, in the order given (`iloc[:, positions]`). */
  function Pick(row: Row, positions: seq<nat>): (r: Row)
    requires forall j :: 0 <= j < |positions| ==> positions[j] < |row|
    ensures |r| == |positions|
    ensures forall j :: 0 <= j < |positions| ==> r[j] == row[positions[j]]
  {
    seq(|positions|, j requires 0 <= j < |positions| => row[positions[j]])
  }

  class DataFrame {
    var columns: seq<string>
    var rows: seq<Row>

    ghost predicate Valid()
      reads this
    {
      Rectangular(columns, rows)
    }

    constructor (columns: seq<string>, rows: seq<Row>)
      requires Rectangular(columns, rows)
      ensures Valid() && this.columns == columns && this.rows == rows
    {
      this.columns := columns;
      this.rows := rows;
    }

    /** `df.copy()`: a new frame with the same labels and cells. */
    method Copy() returns (d: DataFrame)
      requires Valid()
      ensures fresh(d) && d.Valid()
      ensures d.columns == columns && d.rows == rows
    {
      d := new DataFrame(columns, rows);
    }

    /** `df.head(n)`: a new frame with the first `n` rows, or all of them when there are fewer. */
    method Head(n: nat) returns (d: DataFrame)
      requires Valid()
      ensures fresh(d) && d.Valid()
      ensures d.columns == columns
      ensures |d.rows| == if |rows| < n then |rows| else n
      ensures d.rows == rows[..|d.rows|]
    {
      var m := if |rows| < n then |rows| else n;
      d := new DataFrame(columns, rows[..m]);
    }

    /** `df[mask]`: a new frame with the rows whose mask entry is true, in order. */
    method SelectRows(mask: seq<bool>) returns (d: DataFrame)
      requires Valid() && |mask| == |rows|
      ensures fresh(d) && d.Valid()
      ensures d.columns == columns && d.rows == Select(rows, mask)
    {
      SelectAt(rows, mask);
      d := new DataFrame(columns, Select(rows, mask));
    }

    /** `df.iloc[:, positions].copy()`: a new frame with the columns at the given positions;
        a position past the last column is pandas' IndexError, which callers rule out. */
    method TakeColumns(positions: seq<nat>) returns (d: DataFrame)
      requires Valid()
      requires forall j :: 0 <= j < |positions| ==> positions[j] < |columns|
      ensures fresh(d) && d.Valid()
      ensures |d.columns| == |positions|
      ensures forall j :: 0 <= j < |positions| ==> d.columns[j] == columns[positions[j]]
      ensures |d.rows| == |rows|
      ensures forall i :: 0 <= i < |rows| ==> d.rows[i] == Pick(rows[i], positions)
    {
      var cols, rs := columns, rows;
      var labels := seq(|positions|, j requires 0 <= j < |positions| => cols[positions[j]]);
      var picked := seq(|rs|, i requires 0 <= i < |rs| => Pick(rs[i], positions));
      d := new DataFrame(labels, picked);
    }

    /** `df.columns = labels`: relabels the columns in place; pandas refuses a list of
        another length. */
    method Rename(labels: seq<string>)
      requires Valid() && |labels| == |columns|
      modifies this
      ensures Valid()
      ensures columns == labels && rows == old(rows)
    {
      columns := labels;
    }

    /** `df[name] = df[name].apply(make_clickable_link_text)`: rewrites one column in place.
        The name must be a column (otherwise pandas raises KeyError) and name only one. */
    method ApplyLinkText(name: string)
      requires Valid() && name in columns && AtMostOnce(columns, name)
      modifies this
      ensures Valid() && columns == old(columns)
      ensures rows == LinkColumn(old(rows), IndexOf(columns, name))
    {
      rows := LinkColumn(rows, IndexOf(columns, name));
    }
  }
}
