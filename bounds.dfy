/** Validation of the search-space bounds given as a list of (min, max) pairs,
    turned into a vector of lower and a vector of upper limits. */
module Bounds {
  import opened Values

  /** The two ValueErrors the conversion raises. */
  datatype BoundsError =
    | Undefined   // no bounds given at all
    | Malformed   // not a non-empty list of (min, max) pairs

  /** A non-empty list whose rows all have exactly two elements: after the
      transpose its first dimension is 2. */
  predicate IsPairList(rows: seq<seq<real>>)
  {
    |rows| > 0 && forall i :: 0 <= i < |rows| ==> |rows[i]| == 2
  }

  /** Column `k` of a list of rows (one element of the transpose). */
  function Column(rows: seq<seq<real>>, k: nat): (c: seq<real>)
    requires forall i :: 0 <= i < |rows| ==> k < |rows[i]|
    ensures |c| == |rows|
  {
    seq(|rows|, i requires 0 <= i < |rows| => rows[i][k])
  }

  /** The list of pairs that a pair of limit vectors describes. */
  function Pairs(lower: seq<real>, upper: seq<real>): (rows: seq<seq<real>>)
    requires |lower| == |upper|
    ensures |rows| == |lower|
  {
    seq(|lower|, i requires 0 <= i < |lower| => [lower[i], upper[i]])
  }

  function ConvertBounds(bounds: Option<seq<seq<real>>>): (r: Result<(seq<real>, seq<real>), BoundsError>)
    ensures r == Err(Undefined) <==> bounds.None?
    ensures r.Ok? <==> bounds.Some? && IsPairList(bounds.value)
    ensures r.Ok? ==>
              |r.value.0| == |r.value.1| == |bounds.value| &&
              forall i :: 0 <= i < |bounds.value| ==>
                r.value.0[i] == bounds.value[i][0] && r.value.1[i] == bounds.value[i][1]
  {
    if bounds.None? then Err(Undefined)
    else if !IsPairList(bounds.value) then Err(Malformed)
    else Ok((Column(bounds.value, 0), Column(bounds.value, 1)))
  }

  /** Converting the pairs built from two equally long, non-empty limit vectors
      gives back exactly those vectors. */
  lemma ConvertPairsRoundTrip(lower: seq<real>, upper: seq<real>)
    requires |lower| == |upper| > 0
    ensures ConvertBounds(Some(Pairs(lower, upper))) == Ok((lower, upper))
  {
    var rows := Pairs(lower, upper);
    assert IsPairList(rows);
    assert Column(rows, 0) == lower;
    assert Column(rows, 1) == upper;
  }

  /** Conversely, a well-formed pair list is rebuilt from the two vectors. */
  lemma ConvertedPairsRebuild(rows: seq<seq<real>>)
    requires IsPairList(rows)
    ensures ConvertBounds(Some(rows)).Ok?
    ensures Pairs(ConvertBounds(Some(rows)).value.0, ConvertBounds(Some(rows)).value.1) == rows
  {
    var lu := ConvertBounds(Some(rows)).value;
    forall i | 0 <= i < |rows|
      ensures Pairs(lu.0, lu.1)[i] == rows[i]
    {
      assert rows[i] == [rows[i][0], rows[i][1]];
    }
  }
}
