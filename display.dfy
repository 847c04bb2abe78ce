/** The two display projections: the references frame keeps all its columns and has its link
    column rewritten; the books frame is cut down to four renamed columns. */
module Display {
  import opened Cells
  import Links
  import opened Frames

  /** Positions of the book columns shown, in the frame as loaded (`iloc[:, [0, 1, 2, 5]]`). */
  const BookDisplayPositions: seq<nat> := [0, 1, 2, 5]
  const BookDisplayColumns: seq<string> := ["Title", "Name", "Year", "Link"]

  /** A reference row as displayed: the cell at `link` becomes the link text. */
  function ReferenceDisplayRow(row: Row, link: nat): (r: Row)
    requires link < |row|
    ensures |r| == |row|
    ensures forall j :: 0 <= j < |row| && j != link ==> r[j] == row[j]
    ensures r[link].Present?
    ensures r[link].text == "" <==> !Links.IsLinkable(row[link])
    ensures Links.IsLinkable(row[link]) ==> Links.HrefOf(r[link].text) == Links.Some(row[link].text)
  {
    row[link := Present(Links.MakeClickableLinkText(row[link]))]
  }

  /** A book row as displayed: title, name and year as they are, then the link text of the
      cell at position 5. */
  function BookDisplayRow(row: Row): (r: Row)
    requires |row| >= 6
    ensures |r| == |BookDisplayColumns|
    ensures r[..3] == row[..3]
    ensures r[3].Present?
    ensures Links.IsLinkable(row[5]) ==> Links.HrefOf(r[3].text) == Links.Some(row[5].text)
  {
    [row[0], row[1], row[2], Present(Links.MakeClickableLinkText(row[5]))]
  }

  /** `get_display_dataframe(df, link_column)`: a copy of the frame with the same columns and
      the same number of rows; every cell outside the link column is as it was, and each link
      cell is the link text of the original value. The frame passed in is left as it was. */
  method GetDisplayDataframe(df: DataFrame, linkColumn: string) returns (d: DataFrame)
    requires df.Valid() && linkColumn in df.columns && AtMostOnce(df.columns, linkColumn)
    ensures fresh(d) && d.Valid() && unchanged(df)
    ensures d.columns == df.columns
    ensures |d.rows| == |df.rows|
    ensures forall i :: 0 <= i < |df.rows| ==>
              d.rows[i] == ReferenceDisplayRow(df.rows[i], IndexOf(df.columns, linkColumn))
  {
    d := df.Copy();
    d.ApplyLinkText(linkColumn);
  }

  /** `prepare_book_display_df(df)`: a new frame with exactly the columns Title, Name, Year
      and Link, taken from positions 0, 1, 2 and 5, one row per input row, with Link holding
      the link text. A frame with fewer than six columns makes pandas raise IndexError. */
  method PrepareBookDisplayDf(df: DataFrame) returns (d: DataFrame)
    requires df.Valid() && |df.columns| >= 6
    ensures fresh(d) && d.Valid() && unchanged(df)
    ensures d.columns == BookDisplayColumns
    ensures |d.rows| == |df.rows|
    ensures forall i :: 0 <= i < |df.rows| ==> d.rows[i] == BookDisplayRow(df.rows[i])
  {
    d := df.TakeColumns(BookDisplayPositions);
    d.Rename(BookDisplayColumns);
    assert IndexOf(d.columns, "Link") == 3;
    d.ApplyLinkText("Link");
  }

  /** A displayed book row is a row of four cells whose link cell is empty exactly when the
      source's link value is missing or does not start with "http". */
  lemma BookLinkEmptyIff(row: Row)
    requires |row| >= 6
    ensures |BookDisplayRow(row)| == |BookDisplayColumns|
    ensures BookDisplayRow(row)[3] == Present("") <==> !Links.IsLinkable(row[5])
  {
  }

  /** Looking a column up by the label found at position `k` gives back `k` when the label is
      not repeated; this is how `ref_data.columns[4]` addresses the fifth column. */
  lemma IndexOfOwnLabel(columns: seq<string>, k: nat)
    requires k < |columns| && AtMostOnce(columns, columns[k])
    ensures IndexOf(columns, columns[k]) == k
  {
  }
}
