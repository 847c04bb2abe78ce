/** One run of the search page: before a search it previews the first rows of both sheets;
    on a search it gathers the keywords, warns when there are none, and otherwise filters
    both sheets and shows, per sheet, either a "nothing found" message with an empty table
    or the projected matches together with the unprojected matches offered for download. */
module App {
  import opened Cells
  import opened Frames
  import opened Search
  import opened Display
  import opened Masks

  const RefSearchColumns: seq<string> :=
    ["Title", "People/identity focus1", "People/identity focus2", "Outcome", "Practices", "Description"]
  const BookSearchColumns: seq<string> := ["Title", "Key audience(s)", "Key Groups/themes"]

  /** Rows shown before any search (`head(5)`). */
  const SampleRows: nat := 5
  /** The references' link column is the fifth column of the frame as loaded. */
  const RefLinkPosition: nat := 4

  /** `[k for k in [keyword1, keyword2] if k]`. */
  function GatherKeywords(keyword1: string, keyword2: string): (r: seq<string>)
    ensures forall k :: k in r <==> (k == keyword1 || k == keyword2) && k != ""
    ensures r == [] <==> keyword1 == "" && keyword2 == ""
    ensures |r| <= 2
    ensures r == (if keyword1 == "" then [] else [keyword1]) + (if keyword2 == "" then [] else [keyword2])
  {
    var ks := [keyword1, keyword2];
    var r := NonEmpty(ks);
    var keep := seq(|ks|, i requires 0 <= i < |ks| => ks[i] != "");
    assert r == Select(ks, keep);
    assert ks[..1] == [keyword1] && keep[..1] == [keyword1 != ""];
    assert Select([keyword1], [keyword1 != ""]) == Select([], []) + (if keyword1 != "" then [keyword1] else []);
    AnyKeywordNonEmpty([keyword1, keyword2]);
    assert AnyKeyword([keyword1, keyword2]) <==> keyword1 != "" || keyword2 != "" by {
      assert [keyword1, keyword2][0] == keyword1 && [keyword1, keyword2][1] == keyword2;
    }
    r
  }

  /** What the page shows for one sheet after a search. */
  datatype Section =
    | NoMatches(header: seq<string>)                        // info message and an empty table with this header
    | Found(count: nat, display: DataFrame, download: DataFrame)  // success message, table, CSV of `download`

  datatype Page =
    | Welcome(refSample: DataFrame, bookSample: DataFrame)  // no search yet: previews
    | EmptyQuery                                            // search with no keyword: a warning only
    | Results(keywords: seq<string>, references: Section, books: Section)

  /** The references section shows `filtered`: nothing-found with the sheet's own header, or
      every match with its link cell rewritten, and all columns of the matches for download. */
  ghost predicate ShowsReferences(s: Section, columns: seq<string>, filtered: seq<Row>)
    requires forall i :: 0 <= i < |filtered| ==> |filtered[i]| == |columns|
    reads if s.Found? then {s.display, s.download} else {}
  {
    if filtered == [] then s == NoMatches(columns)
    else
      |columns| > RefLinkPosition
      && s.Found? && s.count == |filtered|
      && s.download.columns == columns && s.download.rows == filtered
      && s.display.columns == columns && |s.display.rows| == |filtered|
      && forall i :: 0 <= i < |filtered| ==> s.display.rows[i] == ReferenceDisplayRow(filtered[i], RefLinkPosition)
  }

  /** The books section shows `filtered`: nothing-found with the four display headers, or every
      match projected to Title, Name, Year and Link, and all columns of the matches for download. */
  ghost predicate ShowsBooks(s: Section, columns: seq<string>, filtered: seq<Row>)
    requires forall i :: 0 <= i < |filtered| ==> |filtered[i]| == |columns|
    reads if s.Found? then {s.display, s.download} else {}
  {
    if filtered == [] then s == NoMatches(BookDisplayColumns)
    else
      |columns| >= 6
      && s.Found? && s.count == |filtered|
      && s.download.columns == columns && s.download.rows == filtered
      && s.display.columns == BookDisplayColumns && |s.display.rows| == |filtered|
      && forall i :: 0 <= i < |filtered| ==> s.display.rows[i] == BookDisplayRow(filtered[i])
  }

  /** One run of the page with the two sheets already loaded. The sheets must have at least
      five and six columns (the script reads `columns[4]` and `columns[5]` when it starts), the
      references' link label must not repeat, and a searched label must not repeat either. */
  method HandleRun(searchClicked: bool, keyword1: string, keyword2: string, refData: DataFrame, bookData: DataFrame)
    returns (page: Page)
    requires refData.Valid() && bookData.Valid()
    requires |refData.columns| > RefLinkPosition && |bookData.columns| >= 6
    requires AtMostOnce(refData.columns, refData.columns[RefLinkPosition])
    requires searchClicked && (keyword1 != "" || keyword2 != "") ==>
               (forall c :: c in RefSearchColumns ==> AtMostOnce(refData.columns, c))
               && (forall c :: c in BookSearchColumns ==> AtMostOnce(bookData.columns, c))
    ensures unchanged(refData, bookData)
    ensures !searchClicked ==>
              page.Welcome? && fresh(page.refSample) && fresh(page.bookSample)
              && page.refSample.columns == refData.columns
              && |page.refSample.rows| == (if |refData.rows| < SampleRows then |refData.rows| else SampleRows)
              && (forall i :: 0 <= i < |page.refSample.rows| ==>
                    page.refSample.rows[i] == ReferenceDisplayRow(refData.rows[i], RefLinkPosition))
              && page.bookSample.columns == BookDisplayColumns
              && |page.bookSample.rows| == (if |bookData.rows| < SampleRows then |bookData.rows| else SampleRows)
              && (forall i :: 0 <= i < |page.bookSample.rows| ==>
                    page.bookSample.rows[i] == BookDisplayRow(bookData.rows[i]))
    ensures searchClicked && keyword1 == "" && keyword2 == "" ==> page == EmptyQuery
    ensures searchClicked && (keyword1 != "" || keyword2 != "") ==>
              page.Results? && page.keywords == GatherKeywords(keyword1, keyword2)
              && ShowsReferences(page.references, refData.columns,
                   FilterRows(refData.columns, refData.rows, [keyword1, keyword2], RefSearchColumns))
              && ShowsBooks(page.books, bookData.columns,
                   FilterRows(bookData.columns, bookData.rows, [keyword1, keyword2], BookSearchColumns))
              && (page.references.Found? ==> fresh(page.references.display))
              && (page.books.Found? ==> fresh(page.books.display))
  {
    var refLink := refData.columns[RefLinkPosition];
    IndexOfOwnLabel(refData.columns, RefLinkPosition);
    if !searchClicked {
      var refHead := refData.Head(SampleRows);
      var refSample := GetDisplayDataframe(refHead, refLink);
      var bookHead := bookData.Head(SampleRows);
      var bookSample := PrepareBookDisplayDf(bookHead);
      page := Welcome(refSample, bookSample);
      return;
    }
    var keywords := GatherKeywords(keyword1, keyword2);
    if keywords == [] {
      page := EmptyQuery;
      return;
    }
    EmptyKeywordsIgnored(refData.columns, refData.rows, [keyword1, keyword2], RefSearchColumns);
    EmptyKeywordsIgnored(bookData.columns, bookData.rows, [keyword1, keyword2], BookSearchColumns);
    var filteredRef := FilterReferences(refData, keywords, RefSearchColumns);
    var filteredBook := FilterReferences(bookData, keywords, BookSearchColumns);

    var references: Section;
    if |filteredRef.rows| == 0 {
      references := NoMatches(refData.columns);
    } else {
      var display := GetDisplayDataframe(filteredRef, refLink);
      references := Found(|filteredRef.rows|, display, filteredRef);
    }

    var books: Section;
    if |filteredBook.rows| == 0 {
      books := NoMatches(BookDisplayColumns);
    } else {
      var display := PrepareBookDisplayDf(filteredBook);
      books := Found(|filteredBook.rows|, display, filteredBook);
    }
    page := Results(keywords, references, books);
  }

  /** A string in which neither `ch` nor its upper-case form occurs does not contain `ch`
      once lower-cased. */
  lemma LowerAvoids(s: string, ch: char)
    requires 'a' <= ch <= 'z'
    requires forall i :: 0 <= i < |s| ==> s[i] != ch && s[i] as int != ch as int - 32
    ensures ch !in Lower(s)
  {
    forall i | 0 <= i < |s| ensures Lower(s)[i] != ch { }
  }

  const ScenarioColumns: seq<string> := ["Title", "Description"]
  const ScenarioRow: Row := [Present("Career Paths"), Present("mentoring women")]

  /** A frame with one reference titled "Career Paths" and described as "mentoring women":
      searching for "mentoring" keeps the row. */
  lemma MentoringFound()
    ensures FilterRows(ScenarioColumns, [ScenarioRow], ["mentoring"], RefSearchColumns) == [ScenarioRow]
  {
    var keywords := ["mentoring"];
    assert keywords[0] != "";
    assert IndexOf(ScenarioColumns, "Description") == 1;
    assert Lower("mentoring") == "mentoring";
    assert Lower("mentoring women") == "mentoring women";
    assert Hit(ScenarioColumns, ScenarioRow, keywords[0], RefSearchColumns[5]);
    assert MatchMask(ScenarioColumns, [ScenarioRow], keywords, RefSearchColumns) == [true];
    SelectAll([ScenarioRow], [true]);
  }

  /** The same frame: searching for "xyz123" keeps nothing. */
  lemma XyzNotFound()
    ensures FilterRows(ScenarioColumns, [ScenarioRow], ["xyz123"], RefSearchColumns) == []
  {
    var keywords := ["xyz123"];
    assert keywords[0] != "";
    assert Lower("xyz123")[0] == 'x';
    LowerAvoids("Career Paths", 'x');
    LowerAvoids("mentoring women", 'x');
    forall c | 0 <= c < |RefSearchColumns| ensures !Hit(ScenarioColumns, ScenarioRow, "xyz123", RefSearchColumns[c]) {
      if RefSearchColumns[c] in ScenarioColumns {
        var cell := ScenarioRow[IndexOf(ScenarioColumns, RefSearchColumns[c])];
        assert cell == ScenarioRow[0] || cell == ScenarioRow[1];
        NotContainsFirstChar(Lower(Render(cell)), Lower("xyz123"));
      }
    }
    assert MatchMask(ScenarioColumns, [ScenarioRow], keywords, RefSearchColumns) == [false];
    SelectNone([ScenarioRow], [false]);
  }

  /** Only "" is skipped: a keyword of one space is a real search, and it drops a row whose
      searched cells hold no space, where no keyword at all would keep every row. */
  lemma SpaceKeywordSearches()
    ensures var columns := ["Title"];
            var rows := [[Present("Careers")]];
            FilterRows(columns, rows, [" "], RefSearchColumns) == []
            && FilterRows(columns, rows, [""], RefSearchColumns) == rows
  {
    var columns := ["Title"];
    var row := [Present("Careers")];
    var rows := [row];
    assert [" "][0] != "";
    assert IndexOf(columns, "Title") == 0;
    forall c | 0 <= c < |RefSearchColumns| ensures !Hit(columns, row, " ", RefSearchColumns[c]) {
      if RefSearchColumns[c] in columns {
        assert Lower(" ") == " ";
        assert ' ' !in Lower("Careers") by {
          forall i | 0 <= i < |"Careers"| ensures Lower("Careers")[i] != ' ' { }
        }
        NotContainsFirstChar(Lower("Careers"), Lower(" "));
      }
    }
    assert MatchMask(columns, rows, [" "], RefSearchColumns) == [false];
    SelectNone(rows, [false]);
  }
}
