/** Resampling the improvement trace (times and fitness values of successive
    strict improvements) at evenly spaced times, as a step function. */
module Trace {

  /** The first index whose time is at least `bound` (`|ts|` if none). */
  function FirstAtLeast(ts: seq<real>, bound: real): (j: nat)
    ensures j <= |ts|
    ensures forall k :: 0 <= k < j ==> ts[k] < bound
    ensures j < |ts| ==> ts[j] >= bound
  {
    if ts == [] then 0
    else if ts[0] >= bound then 0
    else 1 + FirstAtLeast(ts[1..], bound)
  }

  /** A larger bound is reached no earlier. */
  lemma FirstAtLeastMonotone(ts: seq<real>, b1: real, b2: real)
    requires b1 <= b2
    ensures FirstAtLeast(ts, b1) <= FirstAtLeast(ts, b2)
  {
  }

  /** A bound the last time reaches is reached inside the trace. */
  lemma FirstAtLeastFound(ts: seq<real>, bound: real)
    requires |ts| > 0 && ts[|ts| - 1] >= bound
    ensures FirstAtLeast(ts, bound) < |ts|
  {
  }

  /** The factor 0.9999999 that keeps the last bucket edge below the last time. */
  const Shrink: real := 0.9999999

  /** The width of each of `num` buckets spanning 0.9999999 * last. */
  function Width(last: real, num: nat): (w: real)
    requires num > 0
  {
    Shrink * last / num as real
  }

  /** The upper edge of bucket `i`. */
  function BucketBound(last: real, num: nat, i: nat): (b: real)
    requires num > 0
  {
    (i + 1) as real * Width(last, num)
  }

  lemma BucketWithin(last: real, num: nat, i: nat)
    requires num > 0 && i < num && last >= 0.0
    ensures 0.0 <= BucketBound(last, num, i) <= last
  {
    var dt := Shrink * last / num as real;
    assert dt >= 0.0;
    assert num as real * dt == Shrink * last <= last;
    assert (num - (i + 1)) as real * dt >= 0.0;
    assert num as real * dt == (i + 1) as real * dt + (num - (i + 1)) as real * dt;
  }

  lemma BucketMonotone(last: real, num: nat, i: nat, j: nat)
    requires num > 0 && i <= j && last >= 0.0
    ensures BucketBound(last, num, i) <= BucketBound(last, num, j)
  {
    var dt := Shrink * last / num as real;
    assert dt >= 0.0;
    assert (j - i) as real * dt >= 0.0;
    assert (j + 1) as real * dt == (i + 1) as real * dt + (j - i) as real * dt;
  }

  predicate TraceShape(ts: seq<real>, vs: seq<real>)
  {
    |ts| == |vs| > 0 && ts[|ts| - 1] >= 0.0
  }

  /** Sample `i`: the value recorded at the first improvement whose time reaches
      the upper edge of bucket `i`. */
  function SampleAt(ts: seq<real>, vs: seq<real>, num: nat, i: nat): (v: real)
    requires TraceShape(ts, vs) && num > 0 && i < num
  {
    BucketWithin(ts[|ts| - 1], num, i);
    vs[FirstAtLeast(ts, BucketBound(ts[|ts| - 1], num, i))]
  }

  /** The `num` samples of the trace. */
  function Resample(ts: seq<real>, vs: seq<real>, num: nat): (r: seq<real>)
    requires TraceShape(ts, vs) && num > 0
    ensures |r| == num
  {
    seq(num, i requires 0 <= i < num => SampleAt(ts, vs, num, i))
  }

  /** When the recorded values never increase, neither do the samples. */
  lemma ResampleNonIncreasing(ts: seq<real>, vs: seq<real>, num: nat)
    requires TraceShape(ts, vs) && num > 0
    requires forall j, k :: 0 <= j < k < |vs| ==> vs[j] >= vs[k]
    ensures forall i, j :: 0 <= i < j < num ==> Resample(ts, vs, num)[i] >= Resample(ts, vs, num)[j]
  {
    var last := ts[|ts| - 1];
    forall i, j | 0 <= i < j < num
      ensures Resample(ts, vs, num)[i] >= Resample(ts, vs, num)[j]
    {
      BucketMonotone(last, num, i, j);
      BucketWithin(last, num, j);
      FirstAtLeastMonotone(ts, BucketBound(last, num, i), BucketBound(last, num, j));
    }
  }

  /** Every sample is one of the recorded values, and when the recorded values
      never increase, every sample lies between the first and the last of them. */
  lemma ResampleRecorded(ts: seq<real>, vs: seq<real>, num: nat)
    requires TraceShape(ts, vs) && num > 0
    ensures forall i :: 0 <= i < num ==> Resample(ts, vs, num)[i] in vs
    ensures (forall j, k :: 0 <= j < k < |vs| ==> vs[j] >= vs[k]) ==>
              forall i :: 0 <= i < num ==> vs[0] >= Resample(ts, vs, num)[i] >= vs[|vs| - 1]
  {
    var last := ts[|ts| - 1];
    var mono := forall j, k :: 0 <= j < k < |vs| ==> vs[j] >= vs[k];
    forall i | 0 <= i < num
      ensures Resample(ts, vs, num)[i] in vs
      ensures mono ==> vs[0] >= Resample(ts, vs, num)[i] >= vs[|vs| - 1]
    {
      BucketWithin(last, num, i);
      FirstAtLeastFound(ts, BucketBound(last, num, i));
      var k := FirstAtLeast(ts, BucketBound(last, num, i));
      assert Resample(ts, vs, num)[i] == vs[k];
      if mono {
        assert k == 0 || vs[0] >= vs[k];
        assert k == |vs| - 1 || vs[k] >= vs[|vs| - 1];
      }
    }
  }

  /** Steps the trace index from `ti` to the first time at or after `bound`. */
  method Advance(ts: seq<real>, bound: real, ti: nat) returns (r: nat)
    requires ti <= FirstAtLeast(ts, bound) < |ts|
    ensures r == FirstAtLeast(ts, bound)
  {
    r := ti;
    while ts[r] < bound
      invariant r <= FirstAtLeast(ts, bound)
      decreases |ts| - r
    {
      r := r + 1;
    }
  }

  /** The resampling loop of get_statistics over the visible trace: the
      trace index only moves forward across buckets, and `range(num)` is
      empty for a negative `num`. */
  method Sample(ts: seq<real>, vs: seq<real>, num: int) returns (conv: seq<real>)
    requires TraceShape(ts, vs) && num != 0
    ensures num < 0 ==> conv == []
    ensures num > 0 ==> conv == Resample(ts, vs, num)
  {
    if num < 0 {
      return [];
    }
    var mt := ts[|ts| - 1];
    conv := [];
    var ti := 0;
    for i := 0 to num
      invariant |conv| == i && ti < |ts|
      invariant i == 0 ==> ti == 0
      invariant i > 0 ==> ti == FirstAtLeast(ts, BucketBound(mt, num, i - 1))
      invariant forall j :: 0 <= j < i ==> conv[j] == SampleAt(ts, vs, num, j)
    {
      BucketWithin(mt, num, i);
      FirstAtLeastFound(ts, BucketBound(mt, num, i));
      if i > 0 {
        BucketMonotone(mt, num, i - 1, i);
        FirstAtLeastMonotone(ts, BucketBound(mt, num, i - 1), BucketBound(mt, num, i));
      }
      ti := Advance(ts, BucketBound(mt, num, i), ti);
      conv := conv + [vs[ti]];
    }
  }
}
