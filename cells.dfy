/** Cells of a loaded sheet and the case-insensitive substring test the search runs on them.

    A cell is either missing (pandas' NaN) or an already-rendered string. The search renders
    every cell with `astype(str)` before it looks for a keyword, so a missing cell takes part
    in the search as the three letters "nan". */
module Cells {

  datatype Cell = Missing | Present(text: string)

  /** The text `astype(str)` gives a cell: a present text as it is, a missing one as "nan". */
  function Render(c: Cell): (r: string)
    ensures c.Present? ==> r == c.text
    ensures c.Missing? ==> r == "nan"
  {
    match c
    case Missing => "nan"
    case Present(s) => s
  }

  predicate IsUpper(ch: char) {
    'A' <= ch <= 'Z'
  }

  /** ASCII lower-casing of one character; every other character is left alone. */
  function LowerChar(ch: char): (r: char)
    ensures !IsUpper(r)
    ensures r == ch <==> !IsUpper(ch)
  {
    if IsUpper(ch) then (ch as int + 32) as char else ch
  }

  function Lower(s: string): (r: string)
    ensures |r| == |s|
    ensures forall i :: 0 <= i < |s| ==> r[i] == LowerChar(s[i])
  {
    seq(|s|, i requires 0 <= i < |s| => LowerChar(s[i]))
  }

  /** `needle` occurs in `hay` starting at position `i`. */
  ghost predicate OccursAt(hay: string, needle: string, i: int) {
    0 <= i && i + |needle| <= |hay| && hay[i..i + |needle|] == needle
  }

  /** Substring containment, scanning `hay` from the left. */
  predicate Contains(hay: string, needle: string)
    decreases |hay|
  {
    needle <= hay || (hay != [] && Contains(hay[1..], needle))
  }

  /** `Contains` holds exactly when the needle occurs at some position of the haystack. */
  lemma {:induction false} ContainsIff(hay: string, needle: string)
    ensures Contains(hay, needle) <==> exists i :: OccursAt(hay, needle, i)
    decreases |hay|
  {
    if needle <= hay {
      assert OccursAt(hay, needle, 0);
    } else if hay != [] {
      ContainsIff(hay[1..], needle);
      if Contains(hay[1..], needle) {
        var i :| OccursAt(hay[1..], needle, i);
        assert hay[1..][i..i + |needle|] == hay[i + 1..i + 1 + |needle|];
        assert OccursAt(hay, needle, i + 1);
      } else {
        forall i | 1 <= i && OccursAt(hay, needle, i) ensures OccursAt(hay[1..], needle, i - 1) {
          assert hay[1..][i - 1..i - 1 + |needle|] == hay[i..i + |needle|];
        }
      }
    }
  }

  /** `str.contains(keyword, case=False)` for a keyword without regular-expression
      metacharacters, with case folded on ASCII letters only. The empty keyword is found in
      every text, which is why the search skips it. */
  predicate ContainsIgnoreCase(hay: string, keyword: string)
    ensures keyword == "" ==> ContainsIgnoreCase(hay, keyword)
  {
    Contains(Lower(hay), Lower(keyword))
  }

  /** Case-insensitive containment does not care which letter case either side is in:
      lowering the text, the keyword, or both first gives the same answer. */
  lemma CaseInsensitive(hay: string, keyword: string)
    ensures ContainsIgnoreCase(hay, keyword) == ContainsIgnoreCase(Lower(hay), keyword)
    ensures ContainsIgnoreCase(hay, keyword) == ContainsIgnoreCase(hay, Lower(keyword))
    ensures ContainsIgnoreCase(hay, keyword) == ContainsIgnoreCase(Lower(hay), Lower(keyword))
  {
    LowerIdempotent(hay);
    LowerIdempotent(keyword);
  }

  lemma LowerIdempotent(s: string)
    ensures Lower(Lower(s)) == Lower(s)
  {
  }

  /** The keyword is found iff its lower-cased form occurs somewhere in the lower-cased text. */
  lemma ContainsIgnoreCaseIff(hay: string, keyword: string)
    ensures ContainsIgnoreCase(hay, keyword) <==> exists i :: OccursAt(Lower(hay), Lower(keyword), i)
  {
    ContainsIff(Lower(hay), Lower(keyword));
  }
}
