/** `filter_references`: keeps the rows of a frame in which some non-empty keyword occurs,
    ignoring letter case, in the rendered text of some searchable column the frame has. */
module Search {
  import opened Cells
  import opened Masks
  import opened Frames

  /** Python's `any(keywords)` over strings: some keyword is not "". A keyword made only of
      spaces counts as given. */
  predicate AnyKeyword(keywords: seq<string>)
    ensures AnyKeyword(keywords) <==> exists k :: k in keywords && k != ""
  {
    assert (exists k :: k in keywords && k != "") ==> exists i :: 0 <= i < |keywords| && keywords[i] != "" by {
      if exists k :: k in keywords && k != "" {
        var k :| k in keywords && k != "";
        var i :| 0 <= i < |keywords| && keywords[i] == k;
      }
    }
    assert (exists i :: 0 <= i < |keywords| && keywords[i] != "") ==> exists k :: k in keywords && k != "" by {
      if exists i :: 0 <= i < |keywords| && keywords[i] != "" {
        var i :| 0 <= i < |keywords| && keywords[i] != "";
        assert keywords[i] in keywords;
      }
    }
    exists k :: 0 <= k < |keywords| && keywords[k] != ""
  }

  /** One step of the search loop: `keyword` is searched (it is not ""), `col` is a column of
      the frame, and the keyword occurs in the row's rendered cell of that column. */
  predicate Hit(columns: seq<string>, row: Row, keyword: string, col: string)
    requires |row| == |columns|
  {
    keyword != "" && col in columns && ContainsIgnoreCase(Render(row[IndexOf(columns, col)]), keyword)
  }

  /** The mask entry of one row: an OR over every keyword and every searchable column. A row
      can match only when some keyword is given and some searchable column is present. */
  predicate RowMatches(columns: seq<string>, row: Row, keywords: seq<string>, searchCols: seq<string>)
    requires |row| == |columns|
    ensures RowMatches(columns, row, keywords, searchCols) ==> AnyKeyword(keywords)
    ensures RowMatches(columns, row, keywords, searchCols) ==> exists c :: c in searchCols && c in columns
  {
    exists k, c :: 0 <= k < |keywords| && 0 <= c < |searchCols| && Hit(columns, row, keywords[k], searchCols[c])
  }

  function MatchMask(columns: seq<string>, rows: seq<Row>, keywords: seq<string>, searchCols: seq<string>): seq<bool>
    requires Rectangular(columns, rows)
  {
    seq(|rows|, i requires 0 <= i < |rows| => RowMatches(columns, rows[i], keywords, searchCols))
  }

  /** The rows `filter_references` returns: all of them when no keyword is given, the
      matching ones otherwise. */
  function FilterRows(columns: seq<string>, rows: seq<Row>, keywords: seq<string>, searchCols: seq<string>): (r: seq<Row>)
    requires Rectangular(columns, rows)
    ensures Rectangular(columns, r)
    ensures |r| <= |rows|
  {
    if AnyKeyword(keywords) then
      var mask := MatchMask(columns, rows, keywords, searchCols);
      SelectAt(rows, mask);
      SelectLength(rows, mask);
      Select(rows, mask)
    else rows
  }

  /** `df[col].astype(str).str.contains(keyword, case=False, na=False)` for the column at `k`. */
  function ColumnContains(rows: seq<Row>, k: nat, keyword: string): (m: seq<bool>)
    requires forall i :: 0 <= i < |rows| ==> k < |rows[i]|
    ensures |m| == |rows|
    ensures forall i :: 0 <= i < |rows| ==> (m[i] <==> ContainsIgnoreCase(Render(rows[i][k]), keyword))
  {
    seq(|rows|, i requires 0 <= i < |rows| => ContainsIgnoreCase(Render(rows[i][k]), keyword))
  }

  /** The mask entry after the loop has handled every keyword before `nk` and, of keyword
      `nk`, the searchable columns before `nc`. */
  predicate HitsBefore(columns: seq<string>, row: Row, keywords: seq<string>, searchCols: seq<string>, nk: nat, nc: nat)
    requires |row| == |columns|
  {
    exists k, c :: 0 <= k < |keywords| && 0 <= c < |searchCols| && (k < nk || (k == nk && c < nc))
                   && Hit(columns, row, keywords[k], searchCols[c])
  }

  /** Handling column `nc` of keyword `nk` ORs in exactly that one test. */
  lemma HitsBeforeColumn(columns: seq<string>, row: Row, keywords: seq<string>, searchCols: seq<string>, nk: nat, nc: nat)
    requires |row| == |columns| && nk < |keywords| && nc < |searchCols|
    ensures HitsBefore(columns, row, keywords, searchCols, nk, nc + 1)
            <==> HitsBefore(columns, row, keywords, searchCols, nk, nc) || Hit(columns, row, keywords[nk], searchCols[nc])
  {
  }

  /** Having handled every column of keyword `nk` is having handled every keyword before `nk + 1`. */
  lemma HitsBeforeKeyword(columns: seq<string>, row: Row, keywords: seq<string>, searchCols: seq<string>, nk: nat)
    requires |row| == |columns| && nk < |keywords|
    ensures HitsBefore(columns, row, keywords, searchCols, nk, |searchCols|)
            <==> HitsBefore(columns, row, keywords, searchCols, nk + 1, 0)
  {
  }

  /** An empty keyword is skipped without changing the mask. */
  lemma HitsBeforeSkip(columns: seq<string>, row: Row, keywords: seq<string>, searchCols: seq<string>, nk: nat)
    requires |row| == |columns| && nk < |keywords| && keywords[nk] == ""
    ensures HitsBefore(columns, row, keywords, searchCols, nk + 1, 0)
            <==> HitsBefore(columns, row, keywords, searchCols, nk, 0)
  {
  }

  /** The mask loop of `filter_references`: starting from all-false, for each non-empty
      keyword and each searchable column the frame has, OR in that column's containment test.
      The mask it builds is true exactly at the rows that match. */
  method BuildMask(columns: seq<string>, rows: seq<Row>, keywords: seq<string>, searchCols: seq<string>)
    returns (mask: seq<bool>)
    requires Rectangular(columns, rows)
    ensures |mask| == |rows|
    ensures forall i :: 0 <= i < |rows| ==> (mask[i] <==> RowMatches(columns, rows[i], keywords, searchCols))
  {
    mask := AllFalse(|rows|);
    var ki := 0;
    while ki < |keywords|
      invariant 0 <= ki <= |keywords|
      invariant |mask| == |rows|
      invariant forall i :: 0 <= i < |rows| ==> (mask[i] <==> HitsBefore(columns, rows[i], keywords, searchCols, ki, 0))
    {
      var keyword := keywords[ki];
      if keyword != "" {
        var ci := 0;
        while ci < |searchCols|
          invariant 0 <= ci <= |searchCols|
          invariant |mask| == |rows|
          invariant forall i :: 0 <= i < |rows| ==> (mask[i] <==> HitsBefore(columns, rows[i], keywords, searchCols, ki, ci))
        {
          var col := searchCols[ci];
          forall i | 0 <= i < |rows| {
            HitsBeforeColumn(columns, rows[i], keywords, searchCols, ki, ci);
          }
          if col in columns {
            mask := Or(mask, ColumnContains(rows, IndexOf(columns, col), keyword));
          }
          ci := ci + 1;
        }
        forall i | 0 <= i < |rows| {
          HitsBeforeKeyword(columns, rows[i], keywords, searchCols, ki);
        }
      } else {
        forall i | 0 <= i < |rows| {
          HitsBeforeSkip(columns, rows[i], keywords, searchCols, ki);
        }
      }
      ki := ki + 1;
    }
  }

  /** `filter_references(df, keywords, columns)`. With no keyword given the frame itself is
      returned (the same object); otherwise the rows the mask selects form a new frame with
      the same columns. A searched label that names two columns makes pandas fail, so it is
      excluded. */
  method FilterReferences(df: DataFrame, keywords: seq<string>, searchCols: seq<string>) returns (r: DataFrame)
    requires df.Valid()
    requires AnyKeyword(keywords) ==> forall c :: c in searchCols ==> AtMostOnce(df.columns, c)
    ensures r.Valid()
    ensures !AnyKeyword(keywords) ==> r == df
    ensures AnyKeyword(keywords) ==> fresh(r)
    ensures r.columns == df.columns
    ensures r.rows == FilterRows(df.columns, df.rows, keywords, searchCols)
  {
    if !AnyKeyword(keywords) {
      return df;
    }
    var mask := BuildMask(df.columns, df.rows, keywords, searchCols);
    assert mask == MatchMask(df.columns, df.rows, keywords, searchCols);
    r := df.SelectRows(mask);
  }

  /** `r` is `s` read at the increasing positions `idx`. */
  ghost predicate SubsequenceAt<T>(r: seq<T>, s: seq<T>, idx: seq<nat>) {
    |idx| == |r| && StrictlyIncreasing(idx)
    && forall j :: 0 <= j < |idx| ==> idx[j] < |s| && r[j] == s[idx[j]]
  }

  /** The filter's result is the input read at increasing positions, and those positions are
      exactly the rows that match (every row, when no keyword is given): the rows are a
      subsequence of the input in the original order, each kept row matches (soundness) and
      every matching row is kept (completeness). */
  lemma FilterIsOrderedSelection(columns: seq<string>, rows: seq<Row>, keywords: seq<string>, searchCols: seq<string>)
    requires Rectangular(columns, rows)
    ensures exists idx :: SubsequenceAt(FilterRows(columns, rows, keywords, searchCols), rows, idx)
                          && forall i :: i in idx <==> 0 <= i < |rows|
                                                       && (!AnyKeyword(keywords) || RowMatches(columns, rows[i], keywords, searchCols))
  {
    var r := FilterRows(columns, rows, keywords, searchCols);
    if AnyKeyword(keywords) {
      var mask := MatchMask(columns, rows, keywords, searchCols);
      SelectAt(rows, mask);
      TrueIndicesCorrect(mask);
      assert SubsequenceAt(r, rows, TrueIndices(mask));
    } else {
      var idx := seq(|rows|, i => i);
      assert SubsequenceAt(r, rows, idx);
      assert forall i :: i in idx <==> 0 <= i < |rows| by {
        forall i | 0 <= i < |rows| ensures i in idx { assert idx[i] == i; }
      }
    }
  }

  /** Soundness and completeness on row values: with some keyword given, a row is in the
      result iff it is a row of the input that matches. */
  lemma FilterMembership(columns: seq<string>, rows: seq<Row>, keywords: seq<string>, searchCols: seq<string>, row: Row)
    requires Rectangular(columns, rows) && AnyKeyword(keywords)
    ensures row in FilterRows(columns, rows, keywords, searchCols)
            <==> row in rows && RowMatches(columns, row, keywords, searchCols)
  {
    var mask := MatchMask(columns, rows, keywords, searchCols);
    SelectMembership(rows, mask, row);
    if row in rows {
      var i :| 0 <= i < |rows| && rows[i] == row;
      assert mask[i] == RowMatches(columns, row, keywords, searchCols);
    }
  }

  /** OR over keywords: a row matches a list of keywords made of two parts iff it matches
      one of the parts. */
  lemma RowMatchesConcat(columns: seq<string>, row: Row, ks1: seq<string>, ks2: seq<string>, searchCols: seq<string>)
    requires |row| == |columns|
    ensures RowMatches(columns, row, ks1 + ks2, searchCols)
            <==> RowMatches(columns, row, ks1, searchCols) || RowMatches(columns, row, ks2, searchCols)
  {
    var ks := ks1 + ks2;
    if RowMatches(columns, row, ks, searchCols) {
      var k, c :| 0 <= k < |ks| && 0 <= c < |searchCols| && Hit(columns, row, ks[k], searchCols[c]);
      if k < |ks1| {
        assert ks[k] == ks1[k];
      } else {
        assert ks[k] == ks2[k - |ks1|];
      }
    }
    if RowMatches(columns, row, ks1, searchCols) {
      var k, c :| 0 <= k < |ks1| && 0 <= c < |searchCols| && Hit(columns, row, ks1[k], searchCols[c]);
      assert ks[k] == ks1[k];
    }
    if RowMatches(columns, row, ks2, searchCols) {
      var k, c :| 0 <= k < |ks2| && 0 <= c < |searchCols| && Hit(columns, row, ks2[k], searchCols[c]);
      assert ks[|ks1| + k] == ks2[k];
    }
  }

  /** OR over the two search boxes: with both keywords given, filtering with `[k1, k2]` keeps
      exactly the rows that filtering with `[k1]` or with `[k2]` keeps. */
  lemma FilterTwoKeywords(columns: seq<string>, rows: seq<Row>, k1: string, k2: string, searchCols: seq<string>)
    requires Rectangular(columns, rows) && k1 != "" && k2 != ""
    ensures FilterRows(columns, rows, [k1, k2], searchCols)
            == Select(rows, Or(MatchMask(columns, rows, [k1], searchCols), MatchMask(columns, rows, [k2], searchCols)))
  {
    assert [k1, k2][0] != "";
    var both := MatchMask(columns, rows, [k1, k2], searchCols);
    var either := Or(MatchMask(columns, rows, [k1], searchCols), MatchMask(columns, rows, [k2], searchCols));
    forall i | 0 <= i < |rows| ensures both[i] == either[i] {
      assert [k1] + [k2] == [k1, k2];
      RowMatchesConcat(columns, rows[i], [k1], [k2], searchCols);
    }
    assert both == either;
  }

  /** OR over columns: a row matches iff, for some searchable column, it matches that
      column alone. */
  lemma RowMatchesSomeColumn(columns: seq<string>, row: Row, keywords: seq<string>, searchCols: seq<string>)
    requires |row| == |columns|
    ensures RowMatches(columns, row, keywords, searchCols)
            <==> exists c :: 0 <= c < |searchCols| && RowMatches(columns, row, keywords, [searchCols[c]])
  {
    if RowMatches(columns, row, keywords, searchCols) {
      var k, c :| 0 <= k < |keywords| && 0 <= c < |searchCols| && Hit(columns, row, keywords[k], searchCols[c]);
      assert [searchCols[c]][0] == searchCols[c];
      assert RowMatches(columns, row, keywords, [searchCols[c]]);
    }
    if exists c :: 0 <= c < |searchCols| && RowMatches(columns, row, keywords, [searchCols[c]]) {
      var c :| 0 <= c < |searchCols| && RowMatches(columns, row, keywords, [searchCols[c]]);
      var k, z :| 0 <= k < |keywords| && 0 <= z < 1 && Hit(columns, row, keywords[k], [searchCols[c]][z]);
      assert Hit(columns, row, keywords[k], searchCols[c]);
    }
  }

  /** `[k for k in keywords if k]`: the non-empty keywords in their order, repeats kept. */
  function NonEmpty(keywords: seq<string>): (r: seq<string>)
    ensures forall k :: k in r <==> k in keywords && k != ""
    ensures |r| <= |keywords|
    ensures exists idx :: SubsequenceAt(r, keywords, idx)
                          && forall i :: i in idx <==> 0 <= i < |keywords| && keywords[i] != ""
  {
    var keep := seq(|keywords|, i requires 0 <= i < |keywords| => keywords[i] != "");
    SelectLength(keywords, keep);
    SelectAt(keywords, keep);
    TrueIndicesCorrect(keep);
    assert SubsequenceAt(Select(keywords, keep), keywords, TrueIndices(keep));
    forall k ensures k in Select(keywords, keep) <==> k in keywords && k != "" {
      SelectMembership(keywords, keep, k);
    }
    Select(keywords, keep)
  }

  /** Dropping the empty keywords does not change whether a search happens. */
  lemma AnyKeywordNonEmpty(keywords: seq<string>)
    ensures AnyKeyword(NonEmpty(keywords)) <==> AnyKeyword(keywords)
    ensures AnyKeyword(keywords) <==> NonEmpty(keywords) != []
  {
    var ne := NonEmpty(keywords);
    if AnyKeyword(keywords) {
      var k :| 0 <= k < |keywords| && keywords[k] != "";
      assert keywords[k] in ne;
      var j :| 0 <= j < |ne| && ne[j] == keywords[k];
    }
    if ne != [] {
      assert ne[0] in ne;
    }
  }

  /** Dropping the empty keywords does not change which rows match. */
  lemma RowMatchesNonEmpty(columns: seq<string>, row: Row, keywords: seq<string>, searchCols: seq<string>)
    requires |row| == |columns|
    ensures RowMatches(columns, row, NonEmpty(keywords), searchCols) == RowMatches(columns, row, keywords, searchCols)
  {
    var ne := NonEmpty(keywords);
    if RowMatches(columns, row, ne, searchCols) {
      var k, c :| 0 <= k < |ne| && 0 <= c < |searchCols| && Hit(columns, row, ne[k], searchCols[c]);
      assert ne[k] in ne;
      var k' :| 0 <= k' < |keywords| && keywords[k'] == ne[k];
      assert Hit(columns, row, keywords[k'], searchCols[c]);
    }
    if RowMatches(columns, row, keywords, searchCols) {
      var k, c :| 0 <= k < |keywords| && 0 <= c < |searchCols| && Hit(columns, row, keywords[k], searchCols[c]);
      assert keywords[k] in ne;
      var k' :| 0 <= k' < |ne| && ne[k'] == keywords[k];
      assert Hit(columns, row, ne[k'], searchCols[c]);
    }
  }

  /** Dropping the empty keywords, as the search driver does before it filters, leaves the
      filter's result unchanged. */
  lemma EmptyKeywordsIgnored(columns: seq<string>, rows: seq<Row>, keywords: seq<string>, searchCols: seq<string>)
    requires Rectangular(columns, rows)
    ensures FilterRows(columns, rows, NonEmpty(keywords), searchCols) == FilterRows(columns, rows, keywords, searchCols)
  {
    AnyKeywordNonEmpty(keywords);
    var ne := NonEmpty(keywords);
    var m1, m2 := MatchMask(columns, rows, ne, searchCols), MatchMask(columns, rows, keywords, searchCols);
    forall i | 0 <= i < |rows| ensures m1[i] == m2[i] {
      RowMatchesNonEmpty(columns, rows[i], keywords, searchCols);
    }
    assert m1 == m2;
  }

  /** Searchable columns the frame lacks are skipped; when it has none of them, a search
      keeps no row. */
  lemma NoSearchableColumnKeepsNothing(columns: seq<string>, rows: seq<Row>, keywords: seq<string>, searchCols: seq<string>)
    requires Rectangular(columns, rows) && AnyKeyword(keywords)
    requires forall c :: 0 <= c < |searchCols| ==> searchCols[c] !in columns
    ensures FilterRows(columns, rows, keywords, searchCols) == []
  {
    SelectNone(rows, MatchMask(columns, rows, keywords, searchCols));
  }

  /** A missing cell is searched as the text "nan", so a keyword such as "an" or "NaN"
      matches every row whose searchable cell is missing. */
  lemma MissingCellMatches(columns: seq<string>, row: Row, keyword: string, searchCols: seq<string>, c: nat)
    requires |row| == |columns| && c < |searchCols| && searchCols[c] in columns
    requires row[IndexOf(columns, searchCols[c])] == Missing
    requires keyword != "" && Contains("nan", Lower(keyword))
    ensures RowMatches(columns, row, [keyword], searchCols)
  {
    assert Lower("nan") == "nan";
    assert Hit(columns, row, [keyword][0], searchCols[c]);
  }

  /** A needle whose first character does not occur in the text is not contained in it. */
  lemma {:induction false} NotContainsFirstChar(hay: string, needle: string)
    requires needle != [] && needle[0] !in hay
    ensures !Contains(hay, needle)
    decreases |hay|
  {
    if hay != [] {
      NotContainsFirstChar(hay[1..], needle);
    }
  }
}
