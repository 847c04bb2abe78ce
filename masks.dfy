/** Boolean masks over the rows of a frame and boolean indexing (`df[mask]`). */
module Masks {

  /** The mask of all `false` that `pd.Series(False, index=df.index)` builds. */
  function AllFalse(n: nat): (m: seq<bool>)
    ensures |m| == n
    ensures forall i :: 0 <= i < n ==> !m[i]
  {
    seq(n, i => false)
  }

  /** Element-wise `mask | other`. */
  function Or(m: seq<bool>, other: seq<bool>): (r: seq<bool>)
    requires |m| == |other|
    ensures |r| == |m|
    ensures forall i :: 0 <= i < |m| ==> (r[i] <==> m[i] || other[i])
  {
    seq(|m|, i requires 0 <= i < |m| => m[i] || other[i])
  }

  /** The elements of `s` whose mask entry is true, in their original order (`df[mask]`). */
  function Select<T>(s: seq<T>, mask: seq<bool>): (r: seq<T>)
    requires |s| == |mask|
    ensures forall x :: x in r ==> x in s
  {
    if s == [] then []
    else Select(s[..|s| - 1], mask[..|s| - 1]) + (if mask[|s| - 1] then [s[|s| - 1]] else [])
  }

  /** The positions whose mask entry is true, in increasing order. */
  function TrueIndices(mask: seq<bool>): seq<nat> {
    if mask == [] then []
    else TrueIndices(mask[..|mask| - 1]) + (if mask[|mask| - 1] then [|mask| - 1] else [])
  }

  predicate StrictlyIncreasing(idx: seq<nat>) {
    forall j, k :: 0 <= j < k < |idx| ==> idx[j] < idx[k]
  }

  /** `TrueIndices` lists exactly the positions whose mask entry is true, in increasing order. */
  lemma {:induction false} TrueIndicesCorrect(mask: seq<bool>)
    ensures StrictlyIncreasing(TrueIndices(mask))
    ensures forall i :: i in TrueIndices(mask) <==> 0 <= i < |mask| && mask[i]
  {
    if mask != [] {
      var n := |mask| - 1;
      var init := mask[..n];
      TrueIndicesCorrect(init);
      var prev := TrueIndices(init);
      var last: seq<nat> := if mask[n] then [n] else [];
      assert TrueIndices(mask) == prev + last;
      forall j | 0 <= j < |prev| ensures prev[j] < n {
        assert prev[j] in prev;
      }
      forall i ensures i in prev + last <==> 0 <= i < |mask| && mask[i] {
        assert i in prev <==> 0 <= i < n && init[i];
        if 0 <= i < n {
          assert init[i] == mask[i];
        }
      }
    }
  }

  /** `df[mask]` is the input sampled at the true positions of the mask, in order: the
      result is a subsequence of the input that keeps exactly the masked rows. */
  lemma {:induction false} SelectAt<T>(s: seq<T>, mask: seq<bool>)
    requires |s| == |mask|
    ensures |Select(s, mask)| == |TrueIndices(mask)|
    ensures forall j :: 0 <= j < |Select(s, mask)| ==>
              TrueIndices(mask)[j] < |s| && Select(s, mask)[j] == s[TrueIndices(mask)[j]]
  {
    TrueIndicesCorrect(mask);
    if s != [] {
      SelectAt(s[..|s| - 1], mask[..|s| - 1]);
    }
  }

  /** Boolean indexing never adds rows. */
  lemma SelectLength<T>(s: seq<T>, mask: seq<bool>)
    requires |s| == |mask|
    ensures |Select(s, mask)| <= |s|
  {
    SelectAt(s, mask);
    TrueIndicesCorrect(mask);
    CountBound(TrueIndices(mask), |s|);
  }

  /** A strictly increasing sequence of positions below `n` has at most `n` entries. */
  lemma {:induction false} CountBound(idx: seq<nat>, n: nat)
    requires StrictlyIncreasing(idx)
    requires forall j :: 0 <= j < |idx| ==> idx[j] < n
    ensures |idx| <= n
  {
    if idx != [] {
      var init := idx[..|idx| - 1];
      assert forall j :: 0 <= j < |init| ==> init[j] < idx[|idx| - 1];
      CountBound(init, idx[|idx| - 1]);
    }
  }

  /** An element is selected iff it sits at a true position of the mask. */
  lemma SelectMembership<T>(s: seq<T>, mask: seq<bool>, x: T)
    requires |s| == |mask|
    ensures x in Select(s, mask) <==> exists i :: 0 <= i < |s| && mask[i] && s[i] == x
  {
    SelectAt(s, mask);
    TrueIndicesCorrect(mask);
    if x in Select(s, mask) {
      var j :| 0 <= j < |Select(s, mask)| && Select(s, mask)[j] == x;
      var i := TrueIndices(mask)[j];
      assert i in TrueIndices(mask);
      assert mask[i] && s[i] == x;
    }
    if exists i :: 0 <= i < |s| && mask[i] && s[i] == x {
      var i :| 0 <= i < |s| && mask[i] && s[i] == x;
      assert i in TrueIndices(mask);
      var j :| 0 <= j < |TrueIndices(mask)| && TrueIndices(mask)[j] == i;
      assert Select(s, mask)[j] == x;
    }
  }

  /** A mask that is true everywhere keeps the whole sequence. */
  lemma {:induction false} SelectAll<T>(s: seq<T>, mask: seq<bool>)
    requires |s| == |mask|
    requires forall i :: 0 <= i < |mask| ==> mask[i]
    ensures Select(s, mask) == s
  {
    if s != [] {
      SelectAll(s[..|s| - 1], mask[..|s| - 1]);
    }
  }

  /** A mask that is false everywhere keeps nothing. */
  lemma {:induction false} SelectNone<T>(s: seq<T>, mask: seq<bool>)
    requires |s| == |mask|
    requires forall i :: 0 <= i < |mask| ==> !mask[i]
    ensures Select(s, mask) == []
  {
    if s != [] {
      SelectNone(s[..|s| - 1], mask[..|s| - 1]);
    }
  }
}
