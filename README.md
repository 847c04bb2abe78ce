# Reference search: keyword filter and display projections

This project models the search engine inside the reference-search page `Streamlit_ResLib.py`.
The page loads two sheets, a references sheet and a books sheet. It lets a user type up to two
keywords. It keeps the rows of each sheet in which some keyword occurs, ignoring letter case,
in one of that sheet's searchable columns. It then shows the kept rows with their link column
turned into an HTML anchor labelled "Link", and offers the kept rows, unprojected, for download.
Before any search it previews the first five rows of each sheet.

Modules, one per part of the program:

- `Cells` (cells.dfy): a cell is `Missing` (pandas' NaN) or an already-rendered string. `Render`
  is `astype(str)`, which turns a missing cell into `"nan"`. Case-insensitive substring search
  is done by ASCII lower-casing both sides.
- `Masks` (masks.dfy): boolean masks and boolean indexing `df[mask]`, written `Select`. The
  lemmas prove that `Select` reads the input at the increasing true positions of the mask.
- `Links` (links.dfy): `make_clickable_link_text`, plus `HrefOf`, which reads an anchor back.
  The lemmas prove the two are inverse.
- `Frames` (frames.dfy): the DataFrame as a class with `columns` and `rows` fields.
  - `copy`, `head`, `iloc` and `df[mask]` return fresh frames.
  - Assigning a column or the column labels changes the frame in place.
- `Search` (search.dfy): `filter_references`.
  - `BuildMask` is its loop over keywords and columns, proved against `RowMatches`.
  - `FilterReferences` is the whole function. It returns the same frame object when no
    keyword is given.
  - `FilterRows` is the specification of the rows it returns. The lemmas about it prove order,
    soundness, completeness, the OR semantics, that empty keywords are ignored, and that absent
    columns are skipped.
- `Display` (display.dfy): `get_display_dataframe` and `prepare_book_display_df`, each a copy
  followed by in-place column updates.
- `App` (app.dfy): the script's main branch (`HandleRun`). It also holds the documented
  example scenarios.

On these points the model follows the code exactly:

- Only the empty string is skipped as a keyword. A keyword of spaces is a real search; see
  `App.SpaceKeywordSearches`.
- A missing cell is searched as the text "nan", so `na=False` never takes effect. Keywords
  such as "an" or "NaN" match rows with a missing searchable cell; see `Search.MissingCellMatches`.
- The link test is `startswith('http')`. It is case-sensitive and does not require "://":
  "httpfoo" becomes a link and "HTTP://x" does not.
- The book display takes positions 0, 1, 2 and 5 of the frame as loaded (`usecols=[0, 1, 2, 3, 4, 7]`).
  This makes the Link column sheet column 7.
- A missing link column is not tolerated: pandas raises KeyError. A references frame with fewer
  than five columns, or a books frame with fewer than six, makes the script fail when it starts
  (`columns[4]`, `columns[5]`). The model states these as preconditions.
- The driver drops empty keywords before it calls the filter and never calls it without a
  keyword, so the filter's passthrough branch is reachable only by other callers.
- With no match, the references table is shown empty under the sheet's own headers, including the
  raw link column. The books table is shown empty under Title, Name, Year and Link.

## Model

| member | source | states |
|---|---|---|
| Search.AnyKeyword | Streamlit_ResLib.py:82 | `any(keywords)` holds iff some keyword in the list is not the empty string |
| Search.RowMatches | Streamlit_ResLib.py:89-96 | the reference definition of a matching row: some non-empty keyword is contained in the rendered cell of some present searchable column; a row can match only when a keyword is given and a searchable column is present |
| Search.ColumnContains | Streamlit_ResLib.py:96 | `df[col].astype(str).str.contains(keyword, case=False)` has one entry per row, true iff the keyword occurs, ignoring case, in that row's rendered cell |
| Search.BuildMask | Streamlit_ResLib.py:86-96 | the mask built keyword by keyword and column by column is true at a row exactly when some non-empty keyword occurs, ignoring case, in the rendered cell of some searchable column the frame has |
| Search.FilterReferences | Streamlit_ResLib.py:80-98 | with no non-empty keyword the very same frame object is returned; otherwise a fresh frame with the same columns holding exactly the rows the mask selects |
| Search.FilterRows | Streamlit_ResLib.py:98 | the filtered rows keep the frame's shape and are never more than the input rows |
| Search.FilterIsOrderedSelection | Streamlit_ResLib.py:86-98 | the result is the input read at strictly increasing positions, and those positions are exactly the matching rows (every row when no keyword is given): a subsequence in the original order, sound and complete |
| Search.FilterMembership | Streamlit_ResLib.py:89-98 | with a keyword given, a row is in the result iff it is an input row that matches |
| Search.RowMatchesConcat | Streamlit_ResLib.py:89-96 | a row matches a concatenated keyword list iff it matches one of the two parts (OR over keywords) |
| Search.FilterTwoKeywords | Streamlit_ResLib.py:89-98 | with both keywords non-empty, filtering with [k1, k2] keeps exactly the rows kept by [k1] or by [k2] |
| Search.RowMatchesSomeColumn | Streamlit_ResLib.py:93-96 | a row matches iff it matches with some single searchable column (OR over columns) |
| Search.NonEmpty | Streamlit_ResLib.py:190 | the gathered keywords are the given list read at increasing positions, and those positions are exactly the non-empty entries: order and repeats are kept, empty ones dropped |
| Search.AnyKeywordNonEmpty | Streamlit_ResLib.py:82-83 | `any(keywords)` holds iff dropping the empty keywords leaves some keyword, and dropping them does not change it |
| Search.RowMatchesNonEmpty | Streamlit_ResLib.py:89-91 | empty keywords never decide whether a row matches |
| Search.EmptyKeywordsIgnored | Streamlit_ResLib.py:89-91 | filtering with the non-empty keywords alone gives the same rows as filtering with all of them |
| Search.NoSearchableColumnKeepsNothing | Streamlit_ResLib.py:93-94 | absent searchable columns are skipped; when none is present and a keyword is given, no row is kept |
| Search.MissingCellMatches | Streamlit_ResLib.py:96 | a missing searchable cell is searched as "nan", so any non-empty keyword contained in "nan" once lower-cased matches its row |
| Search.NotContainsFirstChar | Streamlit_ResLib.py:96 | a keyword whose first character does not occur in the text is not found in it |
| Cells.Render | Streamlit_ResLib.py:96 | `astype(str)` leaves a present text as it is and turns a missing cell into "nan" |
| Cells.ContainsIgnoreCase | Streamlit_ResLib.py:96 | `str.contains(keyword, case=False)`; the empty keyword is found in every text, which is why the loop skips it |
| Cells.ContainsIff | Streamlit_ResLib.py:96 | the left-to-right containment scan holds iff the keyword occurs at some position of the text |
| Cells.ContainsIgnoreCaseIff | Streamlit_ResLib.py:96 | a keyword is found iff its lower-cased form occurs at some position of the lower-cased text |
| Cells.CaseInsensitive | Streamlit_ResLib.py:96 | lower-casing the text, the keyword, or both first does not change the result of the search (`case=False`) |
| Masks.AllFalse | Streamlit_ResLib.py:86 | the initial mask has one entry per row, all false |
| Masks.Or | Streamlit_ResLib.py:96 | the element-wise OR of two masks has one entry per row, true iff either input entry is true |
| Masks.Select | Streamlit_ResLib.py:98 | `df[mask]` keeps only rows of the input; its order and exactness are stated by Masks.SelectAt and Masks.TrueIndicesCorrect |
| Masks.SelectAt | Streamlit_ResLib.py:98 | `df[mask]` has one row per true mask entry, each the input row at that position |
| Masks.TrueIndicesCorrect | Streamlit_ResLib.py:98 | the positions `df[mask]` reads are strictly increasing and are exactly the true positions of the mask |
| Masks.SelectLength | Streamlit_ResLib.py:98 | boolean indexing never yields more rows than it is given |
| Masks.SelectMembership | Streamlit_ResLib.py:98 | a value is selected iff it sits at a true position of the mask |
| Masks.SelectAll | Streamlit_ResLib.py:98 | an all-true mask keeps every row, in order |
| Masks.SelectNone | Streamlit_ResLib.py:86 | a mask left all-false, as initialised, keeps no row |
| Links.StartsWithHttp | Streamlit_ResLib.py:104 | `startswith('http')` holds iff the text is at least four characters long and begins with the lower-case letters h, t, t, p |
| Links.Anchor | Streamlit_ResLib.py:106 | the anchor is the fixed opening `<a href="`, then the URL unchanged, then the fixed closing `" target="_blank">Link</a>` |
| Links.MakeClickableLinkText | Streamlit_ResLib.py:102-106 | the text is "" exactly for a missing value or one not starting with "http"; otherwise it is an anchor from which `HrefOf` reads back the original URL |
| Links.HrefOf | Streamlit_ResLib.py:106 | whatever URL is read back from a text, that text is exactly the anchor built around it |
| Links.HrefOfAnchor | Streamlit_ResLib.py:106 | reading back the anchor built around a URL gives that URL |
| Links.LinkInjective | Streamlit_ResLib.py:106 | two values that become links become the same link only when they are the same value |
| Links.LinkRejects | Streamlit_ResLib.py:104-105 | a missing value, "ftp://x" and "HTTP://example.com" all become "" |
| Links.LinkAccepts | Streamlit_ResLib.py:104-106 | "http://example.com" and "httpfoo" both become the anchor `<a href="URL" target="_blank">Link</a>` |
| Frames.IndexOf | Streamlit_ResLib.py:94 | `df[col]` addresses the first column carrying that label |
| Frames.LinkColumn | Streamlit_ResLib.py:119 | each row keeps its length and every cell except the one at the link position, which becomes the link text of its old value |
| Frames.Pick | Streamlit_ResLib.py:131 | a projected row has one cell per requested position, each the input cell at that position |
| Frames.DataFrame.Copy | Streamlit_ResLib.py:117 | a fresh frame with the same labels and rows |
| Frames.DataFrame.Head | Streamlit_ResLib.py:258 | a fresh frame with the same labels and the first min(n, rows) rows |
| Frames.DataFrame.SelectRows | Streamlit_ResLib.py:98 | a fresh frame with the same labels and the rows the mask selects |
| Frames.DataFrame.TakeColumns | Streamlit_ResLib.py:131 | a fresh frame with the columns at the given positions, in that order, one row per input row |
| Frames.DataFrame.Rename | Streamlit_ResLib.py:134 | the frame's labels become the given ones, rows untouched |
| Frames.DataFrame.ApplyLinkText | Streamlit_ResLib.py:119 | the named column of this frame is rewritten through the link transform, labels untouched |
| Display.ReferenceDisplayRow | Streamlit_ResLib.py:119 | a displayed reference row keeps every cell but the link cell; the link cell is "" iff the value is not linkable, and otherwise reads back the original URL |
| Display.BookDisplayRow | Streamlit_ResLib.py:131-137 | a displayed book row has four cells: the first three cells of the input, then a link cell that reads back the URL at position 5 when it is linkable |
| Display.GetDisplayDataframe | Streamlit_ResLib.py:115-120 | a fresh frame with the same columns and row count in which only the link column changes, each link cell being the transform of its old value; the input frame is unchanged |
| Display.PrepareBookDisplayDf | Streamlit_ResLib.py:124-139 | a fresh frame with exactly the columns Title, Name, Year, Link taken from positions 0, 1, 2 and 5, one row per input row, Link transformed; the input frame is unchanged |
| Display.BookLinkEmptyIff | Streamlit_ResLib.py:137 | a displayed book row has four cells, and its Link cell is empty iff the source value is missing or does not start with "http" |
| Display.IndexOfOwnLabel | Streamlit_ResLib.py:110 | addressing a column by the label found at position 4 addresses position 4 when that label is not repeated |
| App.GatherKeywords | Streamlit_ResLib.py:190 | the gathered list is exactly the first box's keyword if it is not empty, followed by the second box's if it is not empty; none at all iff both boxes are empty |
| App.HandleRun | Streamlit_ResLib.py:188-267 | before a search: previews of the first five rows, projected as for results; a search with both boxes empty: only a warning; otherwise each section is "nothing found" with the expected header, or the count, the display projection and the unprojected matches for download, where the matches are those of filtering with the two boxes as typed |
| App.MentoringFound | Streamlit_ResLib.py:89-98 | a reference described as "mentoring women" is found by the keyword "mentoring" |
| App.XyzNotFound | Streamlit_ResLib.py:89-98 | the same reference is not found by "xyz123", so the result is empty |
| App.SpaceKeywordSearches | Streamlit_ResLib.py:90 | a keyword of one space is a real search that drops a row without spaces, while an empty keyword keeps every row |

## Left out

- Page setup is not modelled: the injected CSS, title, headers, text inputs and button (lines 9-47, 62-70). The button state and the two keyword strings are parameters of `HandleRun`.
- Loading the two Google Sheets (lines 51-57) is network I/O through a library not shown. The loaded frames are parameters.
- `display_scrollable_table` (lines 143-184) is HTML rendering through pandas `to_html` and `st.write`. The model stops at the frame handed to it.
- The CSV text and download buttons (lines 217-223, 245-251) are left out. A found section records the frame whose CSV is offered: the unprojected filtered frame.
- The message texts are left out: warning, info and success, including the count and `', '.join(keywords)`. The model records which kind of message is shown and the count.
- `str.contains` matches a regular expression. The model uses plain substring containment, so keywords are assumed to hold no regular-expression metacharacters.
- Case folding covers ASCII letters only; Python's Unicode case-insensitive matching is not modelled.
- Cells are taken as already-rendered strings. Pandas' rendering of numbers (such as `2019.0`) happens before the model starts.
- Pandas keeps the row index labels through `df[mask]` and `head`. The model has no index labels, and none of the modelled code reads them.
- Duplicate column labels are not modelled. With a repeated searched or link label, `df[label]` gives a frame instead of a column, and the source then fails. The model requires those labels to be unique (`AtMostOnce`); searched labels only when a keyword is given, since only then does the filter read them.
- `book_link_column` (line 111) is computed and never used. Only its effect is kept: the script fails at start on a books frame with fewer than six columns.
