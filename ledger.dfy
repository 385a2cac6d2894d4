/** The scalar record the store keeps beside its table: evaluation and
    acceptance counters, the best result, and the running (Welford) mean and
    sum of squared deviations. `Record` is what one `add_result` does to it. */
module Ledger {
  import opened Values

  /** One retry result as submitted to the store, with the acceptance limit
      the caller passed. */
  datatype Submission = Submission(y: real, x: seq<real>, evals: int, limit: ExtReal)

  predicate Accepts(s: Submission)
  {
    Below(s.y, s.limit)
  }

  datatype Tally = Tally(
    countEvals: int,      // evaluations over all submitted results
    countStatRuns: nat,   // accepted results
    bestY: ExtReal,       // best accepted fitness, +inf before the first
    bestX: seq<real>,     // its solution vector
    mean: real,           // running mean of accepted fitness values
    qmean: real)          // running sum of squared deviations from the mean

  /** The record of a freshly built store: shared arrays start zeroed, the best
      fitness at +infinity. */
  function Initial(dim: nat): (t: Tally)
    ensures t.countEvals == 0 && t.countStatRuns == 0 && t.bestY == PosInf && |t.bestX| == dim
  {
    Tally(0, 0, PosInf, seq(dim, _ => 0.0), 0.0, 0.0)
  }

  /** One add_result on the record. Evaluations always count; a rejected
      result changes nothing else; the best fitness and its vector change
      together and only towards a smaller fitness. */
  function Record(t: Tally, s: Submission): (r: Tally)
    ensures r.countEvals == t.countEvals + s.evals
    ensures !Accepts(s) ==> r == t.(countEvals := r.countEvals)
    ensures Accepts(s) ==> r.countStatRuns == t.countStatRuns + 1
    ensures AtMost(r.bestY, t.bestY)
    ensures (r.bestY == t.bestY && r.bestX == t.bestX) ||
            (Accepts(s) && Below(s.y, t.bestY) && r.bestY == Fin(s.y) && r.bestX == s.x)
    ensures Accepts(s) && Below(s.y, t.bestY) ==> r.bestY == Fin(s.y) && r.bestX == s.x
  {
    var t1 := t.(countEvals := t.countEvals + s.evals);
    if Accepts(s) then Admit(t1, s.y, s.x) else t1
  }

  /** add_result first counts the evaluations, then admits an accepted result. */
  lemma RecordSteps(t: Tally, s: Submission)
    ensures Accepts(s) ==> Record(t, s) == Admit(t.(countEvals := t.countEvals + s.evals), s.y, s.x)
    ensures !Accepts(s) ==> Record(t, s) == t.(countEvals := t.countEvals + s.evals)
  {
  }

  /** The accepted part of add_result: one more accepted run, a better fitness
      replaces the best pair, and the running statistics take in `y`. */
  function Admit(t: Tally, y: real, x: seq<real>): (r: Tally)
    ensures r.countEvals == t.countEvals && r.countStatRuns == t.countStatRuns + 1
    ensures AtMost(r.bestY, t.bestY)
    ensures Below(y, t.bestY) ==> r.bestY == Fin(y) && r.bestX == x
    ensures !Below(y, t.bestY) ==> r.bestY == t.bestY && r.bestX == t.bestX
  {
    var cnt := t.countStatRuns + 1;
    var improved := Below(y, t.bestY);
    t.(countStatRuns := cnt,
       bestY := if improved then Fin(y) else t.bestY,
       bestX := if improved then x else t.bestX,
       qmean := WelfordQ(t.qmean, t.mean, y, cnt),
       mean := WelfordMean(t.mean, y, cnt))
  }

  /** Welford's update of the mean by the `cnt`-th value `y`. */
  function WelfordMean(mean: real, y: real, cnt: nat): (m: real)
    requires cnt > 0
  {
    var diff := y - mean;
    mean + diff / cnt as real
  }

  /** Welford's update of the sum of squared deviations by the `cnt`-th value `y`. */
  function WelfordQ(qmean: real, mean: real, y: real, cnt: nat): (q: real)
    requires cnt > 0
  {
    var diff := y - mean;
    qmean + (cnt - 1) as real * diff * diff / cnt as real
  }

  /** The record after a sequence of add_result calls. */
  function RecordAll(t: Tally, subs: seq<Submission>): (r: Tally)
  {
    if subs == [] then t else Record(RecordAll(t, subs[..|subs| - 1]), subs[|subs| - 1])
  }

  /** One more submission is one more step of the fold. */
  lemma RecordAllSnoc(t: Tally, subs: seq<Submission>, s: Submission)
    ensures RecordAll(t, subs + [s]) == Record(RecordAll(t, subs), s)
  {
    assert (subs + [s])[..|subs|] == subs;
  }

  /** The fitness values of the accepted submissions, in order. */
  function AcceptedYs(subs: seq<Submission>): (ys: seq<real>)
  {
    if subs == [] then []
    else
      var last := subs[|subs| - 1];
      AcceptedYs(subs[..|subs| - 1]) + (if Accepts(last) then [last.y] else [])
  }

  function SumEvals(subs: seq<Submission>): (total: int)
  {
    if subs == [] then 0 else SumEvals(subs[..|subs| - 1]) + subs[|subs| - 1].evals
  }

  function Sum(a: seq<real>): (total: real)
  {
    if a == [] then 0.0 else Sum(a[..|a| - 1]) + a[|a| - 1]
  }

  function SumSq(a: seq<real>): (total: real)
  {
    if a == [] then 0.0 else SumSq(a[..|a| - 1]) + a[|a| - 1] * a[|a| - 1]
  }

  /** Sum of squared deviations of `a` from `m`, computed directly. */
  function SqDev(a: seq<real>, m: real): (total: real)
  {
    if a == [] then 0.0 else SqDev(a[..|a| - 1], m) + (a[|a| - 1] - m) * (a[|a| - 1] - m)
  }

  /** Population variance of `a` computed from scratch (0 for no values). */
  function PopulationVariance(a: seq<real>): (v: real)
  {
    if a == [] then 0.0 else SqDev(a, Sum(a) / |a| as real) / |a| as real
  }

  /** What get_y_standard_dev squares: 0 when nothing was accepted. */
  function Variance(t: Tally): (v: real)
  {
    if t.countStatRuns <= 0 then 0.0 else t.qmean / t.countStatRuns as real
  }

  // ---------------------------------------------------------------------------
  // Evaluation count

  /** Every submission adds its evaluations, accepted or not. */
  lemma {:induction false} EvalCountIsSum(t: Tally, subs: seq<Submission>)
    ensures RecordAll(t, subs).countEvals == t.countEvals + SumEvals(subs)
  {
    if subs != [] {
      EvalCountIsSum(t, subs[..|subs| - 1]);
    }
  }

  // ---------------------------------------------------------------------------
  // Best result

  /** From a fresh store, the best fitness is the minimum of the accepted
      fitness values (+inf if none) and the best vector belongs to a submission
      that attains it. */
  lemma {:induction false} BestIsMinimum(dim: nat, subs: seq<Submission>)
    ensures RecordAll(Initial(dim), subs).bestY.PosInf? <==> AcceptedYs(subs) == []
    ensures forall i :: 0 <= i < |AcceptedYs(subs)| ==>
              AtMost(RecordAll(Initial(dim), subs).bestY, Fin(AcceptedYs(subs)[i]))
    ensures AcceptedYs(subs) == [] ==> RecordAll(Initial(dim), subs).bestX == Initial(dim).bestX
    ensures AcceptedYs(subs) != [] ==>
              exists k :: 0 <= k < |subs| && Accepts(subs[k]) &&
                RecordAll(Initial(dim), subs).bestY == Fin(subs[k].y) &&
                RecordAll(Initial(dim), subs).bestX == subs[k].x
  {
    if subs != [] {
      var init := subs[..|subs| - 1];
      var s := subs[|subs| - 1];
      BestIsMinimum(dim, init);
      var r0 := RecordAll(Initial(dim), init);
      var r := RecordAll(Initial(dim), subs);
      assert r == Record(r0, s);
      var a0 := AcceptedYs(init);
      var a := AcceptedYs(subs);
      assert a == a0 + (if Accepts(s) then [s.y] else []);
      if Accepts(s) && Below(s.y, r0.bestY) {
        assert subs[|subs| - 1] == s;
      } else if a0 != [] {
        var k :| 0 <= k < |init| && Accepts(init[k]) && r0.bestY == Fin(init[k].y) && r0.bestX == init[k].x;
        assert subs[k] == init[k];
      }
    }
  }

  // ---------------------------------------------------------------------------
  // Welford statistics

  /** The running mean times the count is the sum, and the running `qmean` is
      the sum of squares minus count times mean squared. */
  ghost predicate WelfordInv(t: Tally, a: seq<real>)
  {
    && t.countStatRuns == |a|
    && |a| as real * t.mean == Sum(a)
    && t.qmean == SumSq(a) - |a| as real * t.mean * t.mean
  }

  lemma SumsAppend(a: seq<real>, y: real)
    ensures Sum(a + [y]) == Sum(a) + y
    ensures SumSq(a + [y]) == SumSq(a) + y * y
  {
    assert (a + [y])[..|a|] == a;
  }

  lemma DivCancel(x: real, n: real)
    requires n != 0.0
    ensures (x / n) * n == x && n * (x / n) == x
  {
  }

  lemma SquareExpand(m: real, n: real, e: real)
    ensures (m + (n + 1.0) * e) * (m + (n + 1.0) * e) - (n + 1.0) * (m + e) * (m + e)
            == n * (n + 1.0) * e * e - n * m * m
  {
  }

  /** The Welford update in plain algebra: with `n*m == sum` and
      `q == sumSq - n*m*m` before, the same relations hold for `n+1` values
      after adding `y`. */
  lemma WelfordAlgebra(q: real, sum: real, sumSq: real, n: real, m: real, y: real)
    requires n >= 0.0 && n * m == sum && q == sumSq - n * m * m
    ensures (n + 1.0) * (m + (y - m) / (n + 1.0)) == sum + y
    ensures q + n * (y - m) * (y - m) / (n + 1.0)
            == sumSq + y * y - (n + 1.0) * (m + (y - m) / (n + 1.0)) * (m + (y - m) / (n + 1.0))
  {
    var n1 := n + 1.0;
    var d := y - m;
    var e := d / n1;
    DivCancel(d, n1);
    assert d == n1 * e;
    assert n1 * (m + e) == n * m + m + d;
    assert n * d * d / n1 == n * n1 * e * e by {
      DivCancel(n * d * d, n1);
      assert n * d * d == n * n1 * e * n1 * e;
      assert (n * n1 * e * e) * n1 == n * d * d;
    }
    SquareExpand(m, n, e);
    assert y == m + n1 * e;
  }

  /** The same update for `k` values before and `k + 1` after. */
  lemma WelfordCountAlgebra(q: real, sum: real, sumSq: real, k: nat, m: real, y: real)
    requires k as real * m == sum && q == sumSq - k as real * m * m
    ensures (k + 1) as real * WelfordMean(m, y, k + 1) == sum + y
    ensures WelfordQ(q, m, y, k + 1) == sumSq + y * y - (k + 1) as real * WelfordMean(m, y, k + 1) * WelfordMean(m, y, k + 1)
  {
    var n := k as real;
    assert (k + 1) as real == n + 1.0;
    WelfordAlgebra(q, sum, sumSq, n, m, y);
  }

  /** One accepted Welford update keeps the invariant. */
  lemma WelfordStep(t: Tally, y: real, x: seq<real>, a: seq<real>)
    requires WelfordInv(t, a)
    ensures WelfordInv(Admit(t, y, x), a + [y])
  {
    var k := |a|;
    SumsAppend(a, y);
    WelfordCountAlgebra(t.qmean, Sum(a), SumSq(a), k, t.mean, y);
    WelfordInvIntro(Admit(t, y, x), a + [y], k + 1, WelfordMean(t.mean, y, k + 1), Sum(a) + y, SumSq(a) + y * y);
  }

  /** The invariant from its parts, named. */
  lemma WelfordInvIntro(t: Tally, a: seq<real>, n: nat, m: real, sum: real, sumSq: real)
    requires t.countStatRuns == |a| == n && m == t.mean
    requires sum == Sum(a) && sumSq == SumSq(a)
    requires n as real * m == sum && t.qmean == sumSq - n as real * m * m
    ensures WelfordInv(t, a)
  {
  }

  lemma WelfordUnchanged(t: Tally, r: Tally, a: seq<real>)
    requires WelfordInv(t, a)
    requires r.countStatRuns == t.countStatRuns && r.mean == t.mean && r.qmean == t.qmean
    ensures WelfordInv(r, a)
  {
  }

  lemma {:induction false} WelfordHolds(dim: nat, subs: seq<Submission>)
    ensures WelfordInv(RecordAll(Initial(dim), subs), AcceptedYs(subs))
  {
    if subs != [] {
      var init := subs[..|subs| - 1];
      var s := subs[|subs| - 1];
      WelfordHolds(dim, init);
      var r0 := RecordAll(Initial(dim), init);
      assert RecordAll(Initial(dim), subs) == Record(r0, s);
      if Accepts(s) {
        var r1 := r0.(countEvals := r0.countEvals + s.evals);
        WelfordUnchanged(r0, r1, AcceptedYs(init));
        WelfordStep(r1, s.y, s.x, AcceptedYs(init));
      } else {
        assert AcceptedYs(subs) == AcceptedYs(init) + [];
        assert AcceptedYs(init) + [] == AcceptedYs(init);
        WelfordUnchanged(r0, Record(r0, s), AcceptedYs(init));
      }
    }
  }

  /** The inductive step of SqDevExpand in plain algebra. */
  lemma ExpandAlgebra(sqDevI: real, sumSqI: real, sumI: real, k: nat,
                      sqDev: real, sumSq: real, sum: real, n: nat, m: real, y: real)
    requires sqDevI == sumSqI - 2.0 * m * sumI + k as real * m * m
    requires sqDev == sqDevI + (y - m) * (y - m)
    requires sumSq == sumSqI + y * y && sum == sumI + y && n == k + 1
    ensures sqDev == sumSq - 2.0 * m * sum + n as real * m * m
  {
    assert n as real == k as real + 1.0;
  }

  /** Expanding the square: sum (a_i - m)^2 = sum a_i^2 - 2 m sum a_i + n m^2. */
  lemma {:induction false} SqDevExpand(a: seq<real>, m: real)
    ensures SqDev(a, m) == SumSq(a) - 2.0 * m * Sum(a) + |a| as real * m * m
  {
    if a != [] {
      var init := a[..|a| - 1];
      SqDevExpand(init, m);
      ExpandAlgebra(SqDev(init, m), SumSq(init), Sum(init), |init|,
                    SqDev(a, m), SumSq(a), Sum(a), |a|, m, a[|a| - 1]);
    }
  }

  lemma MeanAlgebra(sumSq: real, sum: real, n: real, m: real, sqDev: real, q: real)
    requires n > 0.0 && n * m == sum
    requires sqDev == sumSq - 2.0 * m * sum + n * m * m && q == sumSq - n * m * m
    ensures m == sum / n && q == sqDev
  {
    DivCancel(sum, n);
  }

  /** What the Welford invariant means for a non-empty list of values. */
  lemma WelfordMeaning(t: Tally, a: seq<real>)
    requires WelfordInv(t, a)
    ensures a != [] ==> t.mean == Sum(a) / |a| as real && t.qmean == SqDev(a, t.mean)
    ensures Variance(t) == PopulationVariance(a)
  {
    if a != [] {
      var ss, sm, n, m := SumSq(a), Sum(a), |a| as real, t.mean;
      SqDevExpand(a, m);
      MeanAlgebra(ss, sm, n, m, SqDev(a, m), t.qmean);
    }
  }

  /** Until a result is accepted, the running mean and sum of squared
      deviations keep the zero values of a fresh store. */
  lemma {:induction false} NothingAcceptedKeepsStatistics(dim: nat, subs: seq<Submission>)
    ensures AcceptedYs(subs) == [] ==>
              RecordAll(Initial(dim), subs).mean == 0.0 && RecordAll(Initial(dim), subs).qmean == 0.0
  {
    if subs != [] && AcceptedYs(subs) == [] {
      var init, last := subs[..|subs| - 1], subs[|subs| - 1];
      assert AcceptedYs(subs) == AcceptedYs(init) + (if Accepts(last) then [last.y] else []);
      NothingAcceptedKeepsStatistics(dim, init);
    }
  }

  /** From a fresh store, the single-pass mean is the arithmetic mean of the
      accepted values, `qmean` their sum of squared deviations from it, and
      the variance `qmean/cnt` the full-recompute population variance. */
  lemma WelfordIsExact(dim: nat, subs: seq<Submission>)
    ensures RecordAll(Initial(dim), subs).countStatRuns == |AcceptedYs(subs)|
    ensures AcceptedYs(subs) != [] ==>
              RecordAll(Initial(dim), subs).mean == Sum(AcceptedYs(subs)) / |AcceptedYs(subs)| as real &&
              RecordAll(Initial(dim), subs).qmean == SqDev(AcceptedYs(subs), RecordAll(Initial(dim), subs).mean)
    ensures Variance(RecordAll(Initial(dim), subs)) == PopulationVariance(AcceptedYs(subs))
  {
    WelfordHolds(dim, subs);
    WelfordMeaning(RecordAll(Initial(dim), subs), AcceptedYs(subs));
  }
}
