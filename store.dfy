/** The results store shared by all retry workers: a bounded ranking table in
    flat arrays, the best result so far, counters, running statistics and the
    optional improvement trace. Every method here runs under the store's one
    lock in the original, so each is one atomic sequential step. */
module Retry {
  import opened Values
  import opened Bounds
  import opened Ranking
  import opened Ledger
  import opened Budget
  import opened Trace

  class Store {
    const lower: seq<real>
    const upper: seq<real>
    const delta: seq<real>           // upper - lower, per dimension
    const dim: nat
    const capacity: nat              // slots in the ranking table
    const checkInterval: nat         // runs between periodic compactions
    const statisticNum: nat          // size of the improvement trace, 0 = off

    const xs: array<real>            // capacity * dim: slot i is [i*dim, i*dim + dim)
    const ys: array<real>            // capacity fitness values
    const bestX: array<real>         // dim
    const time: array<real>          // statisticNum improvement times
    const val: array<real>           // statisticNum improvement values

    var countEvals: int
    var countRuns: nat
    var numStored: nat
    var numSorted: nat
    var countStatRuns: nat
    var mean: real
    var qmean: real
    var bestY: ExtReal

    var si: nat                      // next trace slot
    var sevals: nat                  // evaluations seen by the trace wrapper
    var bval: ExtReal                // best value seen by the trace wrapper

    /** Every result ever submitted, in order. */
    ghost var submissions: seq<Submission>

    /** The configuration and the table's count bound. The trace has its own
        invariant, TraceValid, which only the trace methods can change. */
    ghost predicate Valid()
      reads this`numStored, this`numSorted
    {
      Layout() && numSorted <= numStored <= capacity
    }

    /** Positive capacity and check interval; the table and best-vector
        arrays have their sizes and are distinct. */
    ghost predicate Layout()
    {
      && 0 < capacity && 0 < checkInterval
      && Shaped() && bestX.Length == dim && bestX != xs && bestX != ys
    }

    /** The trace arrays have their sizes and are distinct from each other and
        from the other arrays. */
    ghost predicate TraceLayout()
    {
      && time.Length == statisticNum && val.Length == statisticNum && time != val
      && time != xs && time != ys && time != bestX
      && val != xs && val != ys && val != bestX
    }

    /** The visible trace holds strictly decreasing values at non-negative
        times, and the wrapper's best is no worse than the last of them. */
    ghost predicate TraceValid()
      reads this`si, this`bval, time, val
    {
      && TraceLayout()
      && (if statisticNum == 0 then si == 0 else si < statisticNum)
      && (forall j, k :: 0 <= j < k < si ==> val[j] > val[k])
      && (forall j :: 0 <= j < si ==> time[j] >= 0.0)
      && (si > 0 ==> bval.Fin? && bval.v <= val[si - 1])
    }

    /** The scalar record, as the ledger sees it. */
    ghost function CurrentTally(): (t: Tally)
      reads this`countEvals, this`countStatRuns, this`bestY, this`mean, this`qmean, bestX
    {
      Tally(countEvals, countStatRuns, bestY, bestX[..], mean, qmean)
    }

    /** The record is the one the submissions so far produce from a fresh store. */
    ghost predicate Consistent()
      reads this`countEvals, this`countStatRuns, this`bestY, this`mean, this`qmean, this`submissions, bestX
    {
      CurrentTally() == RecordAll(Initial(dim), submissions)
    }

    /** The stored entries, in table order. */
    ghost function Entries(): (es: seq<Entry>)
      reads this`numStored, xs, ys
      requires numStored <= ys.Length
    {
      EntriesOf(ys[..], xs[..], numStored, dim)
    }

    ghost predicate SortDue()
      reads this`countRuns
    {
      checkInterval > 0 && countRuns % checkInterval == checkInterval - 1
    }

    ghost function RecordedTimes(): (ts: seq<real>)
      reads this`si, time
      requires si <= time.Length
    {
      time[..si]
    }

    ghost function RecordedValues(): (vs: seq<real>)
      reads this`si, val
      requires si <= val.Length
    {
      val[..si]
    }

    constructor (bounds: Option<seq<seq<real>>>, checkInterval: nat, capacity: nat, statisticNum: nat)
      requires ConvertBounds(bounds).Ok?
      requires 0 < capacity && 0 < checkInterval
      ensures Valid() && Consistent() && TraceValid()
      ensures (lower, upper) == ConvertBounds(bounds).value && dim == |lower| == |upper| == |delta|
      ensures forall k :: 0 <= k < dim ==> delta[k] == upper[k] - lower[k]
      ensures this.capacity == capacity && this.checkInterval == checkInterval
      ensures this.statisticNum == statisticNum
      ensures submissions == [] && numStored == 0 && countRuns == 0
      ensures si == 0 && sevals == 0 && bval == PosInf
      ensures fresh(xs) && fresh(ys) && fresh(bestX) && fresh(time) && fresh(val)
    {
      var lu := ConvertBounds(bounds).value;
      var d: seq<real> := [];
      for k := 0 to |lu.0|
        invariant |d| == k
        invariant forall j :: 0 <= j < k ==> d[j] == lu.1[j] - lu.0[j]
      {
        d := d + [lu.1[k] - lu.0[k]];
      }
      lower, upper, delta := lu.0, lu.1, d;
      dim := |lu.0|;
      this.capacity := capacity;
      this.checkInterval := checkInterval;
      this.statisticNum := statisticNum;
      xs := new real[capacity * |lu.0|](_ => 0.0);
      ys := new real[capacity](_ => 0.0);
      bestX := new real[|lu.0|](_ => 0.0);
      time := new real[statisticNum](_ => 0.0);
      val := new real[statisticNum](_ => 0.0);
      countEvals, countRuns, numStored, numSorted, countStatRuns := 0, 0, 0, 0, 0;
      mean, qmean, bestY := 0.0, 0.0, PosInf;
      si, sevals, bval := 0, 0, PosInf;
      submissions := [];
      new;
      assert bestX[..] == Initial(dim).bestX;
    }

    // -------------------------------------------------------------------------
    // Slot access

    method SetY(i: nat, y: real)
      requires Shaped() && i < capacity
      modifies ys
      ensures ys[i] == y
      ensures forall p :: 0 <= p < capacity && p != i ==> ys[p] == old(ys[p])
    {
      ys[i] := y;
    }

    method SetX(i: nat, x: seq<real>)
      requires Shaped() && i < capacity && |x| == dim
      modifies xs
      ensures SlotOf(xs[..], i, dim) == x
      ensures forall p :: 0 <= p < capacity && p != i ==> SlotOf(xs[..], p, dim) == SlotOf(old(xs[..]), p, dim)
    {
      var base := i * dim;
      SlotWithin(i, dim, capacity);
      ghost var before := xs[..];
      CopyInto(xs, base, x);
      ghost var after := xs[..];
      SlotWrite(before, after, i, dim, x);
    }

    /** Copies `x` over `a[base .. base + |x|]`, leaving the rest of `a` alone. */
    static method CopyInto(a: array<real>, base: nat, x: seq<real>)
      requires base + |x| <= a.Length
      modifies a
      ensures a[..][base .. base + |x|] == x
      ensures forall m :: 0 <= m < a.Length && (m < base || base + |x| <= m) ==> a[..][m] == old(a[..])[m]
    {
      forall j | 0 <= j < |x| {
        a[base + j] := x[j];
      }
      assert a[..][base .. base + |x|] == x;
    }

    /** The table's arrays have their sizes. */
    ghost predicate Shaped()
    {
      xs.Length == capacity * dim && ys.Length == capacity && xs != ys
    }

    method GetX(i: nat) returns (x: seq<real>)
      requires Shaped() && i < capacity
      ensures |x| == dim && x == SlotOf(xs[..], i, dim)
    {
      SlotWithin(i, dim, capacity);
      x := xs[i * dim .. i * dim + dim];
    }

    method Replace(i: nat, y: real, x: seq<real>)
      requires Shaped() && i < capacity && |x| == dim
      modifies xs, ys
      ensures ys[i] == y && SlotOf(xs[..], i, dim) == x
      ensures forall p :: 0 <= p < capacity && p != i ==>
                ys[p] == old(ys[p]) && SlotOf(xs[..], p, dim) == SlotOf(old(xs[..]), p, dim)
    {
      SetY(i, y);
      SetX(i, x);
    }

    // -------------------------------------------------------------------------
    // Eviction

    /** The stored entries ranked by fitness (argsort of the fitness values),
        each with the vector of its slot. */
    method RankedEntries() returns (sortRuns: seq<Entry>)
      requires Shaped() && numStored <= capacity
      ensures |sortRuns| == numStored
      ensures multiset(sortRuns) == multiset(Entries()) && SortedByY(sortRuns)
      ensures forall j :: 0 <= j < |sortRuns| ==> |sortRuns[j].x| == dim
    {
      var ns := numStored;
      var ysNow := ys[..ns];
      ghost var before := Entries();
      assert forall i :: 0 <= i < ns ==> before[i].y == ysNow[i];
      var yi := ArgSort(ysNow);
      RankEntries(ysNow, before);
      sortRuns := Gather(ysNow, yi);
      forall j | 0 <= j < |yi|
        ensures sortRuns[j] == before[yi[j]]
      {
        EntryAt(ys[..], xs[..], ns, dim, yi[j]);
      }
      assert sortRuns == Pick(before, yi);
    }

    /** The fitness values `ys` and the vectors of the slots `yi`, in that order. */
    method Gather(ys: seq<real>, yi: seq<nat>) returns (runs: seq<Entry>)
      requires Shaped() && |ys| <= capacity && IndicesBelow(yi, |ys|)
      ensures |runs| == |yi|
      ensures forall j :: 0 <= j < |yi| ==> runs[j] == Entry(ys[yi[j]], SlotOf(xs[..], yi[j], dim))
      ensures forall j :: 0 <= j < |yi| ==> |runs[j].x| == dim
    {
      runs := [];
      for i := 0 to |yi|
        invariant |runs| == i
        invariant forall j :: 0 <= j < i ==> runs[j] == Entry(ys[yi[j]], SlotOf(xs[..], yi[j], dim))
        invariant forall j :: 0 <= j < i ==> |runs[j].x| == dim
      {
        var x := GetX(yi[i]);
        runs := runs + [Entry(ys[yi[i]], x)];
      }
    }

    /** Writes the first `k` ranked entries to the front of the table. */
    method WriteFront(runs: seq<Entry>, k: nat)
      requires Shaped() && k <= |runs| && k <= capacity
      requires forall j :: 0 <= j < |runs| ==> |runs[j].x| == dim
      modifies xs, ys
      ensures forall j :: 0 <= j < k ==> ys[j] == runs[j].y && SlotOf(xs[..], j, dim) == runs[j].x
      ensures forall p :: k <= p < capacity ==>
                ys[p] == old(ys[p]) && SlotOf(xs[..], p, dim) == SlotOf(old(xs[..]), p, dim)
    {
      for i := 0 to k
        invariant forall j :: 0 <= j < i ==> ys[j] == runs[j].y && SlotOf(xs[..], j, dim) == runs[j].x
        invariant forall p :: i <= p < capacity ==>
                    ys[p] == old(ys[p]) && SlotOf(xs[..], p, dim) == SlotOf(old(xs[..]), p, dim)
      {
        Replace(i, runs[i].y, runs[i].x);
      }
    }

    /** Ranks the stored entries by fitness and keeps the best int(0.9 *
        capacity) of them at the front of the table. `sorted` is the full
        ranking the kept entries are the front of. */
    method Sort() returns (k: nat, ghost sorted: seq<Entry>)
      requires Valid()
      modifies this`numStored, this`numSorted, xs, ys
      ensures Valid()
      ensures k == Min(old(numStored), Keep(capacity)) && numStored == k && numSorted == k
      ensures |sorted| == old(numStored)
      ensures multiset(sorted) == multiset(old(Entries())) && SortedByY(sorted)
      ensures Entries() == sorted[..k]
      ensures IsEviction(old(Entries()), Entries(), Keep(capacity))
    {
      ghost var before := Entries();
      var sortRuns := RankedEntries();
      sorted := sortRuns;
      k := Min(|sortRuns|, Keep(capacity));
      WriteFront(sortRuns, k);
      numSorted := k;
      numStored := k;
      EntriesOfFront(ys[..], xs[..], k, dim, sortRuns);
      SortedPrefixIsEviction(before, sortRuns, Keep(capacity));
    }

    /** The periodic compaction: every `checkInterval` runs, the evaluation
        count update sorts the table first. */
    method IncrCountEvals(evals: int)
      requires Valid()
      modifies this`countEvals, this`numStored, this`numSorted, xs, ys
      ensures Valid()
      ensures countEvals == old(countEvals) + evals
      ensures CurrentTally() == old(CurrentTally()).(countEvals := old(countEvals) + evals)
      ensures Compacted(old(Entries()), Entries(), Keep(capacity))
      ensures SortDue() ==> IsEviction(old(Entries()), Entries(), Keep(capacity))
      ensures !SortDue() ==> Entries() == old(Entries()) && numStored == old(numStored) && numSorted == old(numSorted)
    {
      if countRuns % checkInterval == checkInterval - 1 {
        var _, _ := Sort();
      }
      countEvals := countEvals + evals;
    }

    /** Stores one more entry behind the stored ones. */
    method Push(y: real, x: seq<real>)
      requires Shaped() && numStored < capacity && |x| == dim
      modifies this`numStored, xs, ys
      ensures numStored == old(numStored) + 1
      ensures Entries() == old(Entries()) + [Entry(y, x)]
    {
      ghost var before := Entries();
      var ns := numStored;
      numStored := ns + 1;
      Replace(ns, y, x);
      forall p | 0 <= p < ns
        ensures Entries()[p] == before[p]
      {
        EntryAt(ys[..], xs[..], ns + 1, dim, p);
        EntryAt(old(ys[..]), old(xs[..]), ns, dim, p);
      }
      EntryAt(ys[..], xs[..], ns + 1, dim, ns);
      assert Entries() == before + [Entry(y, x)];
    }

    /** Registers one optimization result: the evaluations always count (after
        the periodic compaction), and a result below `limit` is admitted. */
    method AddResult(y: real, x: seq<real>, evals: int, limit: ExtReal) returns (ghost kept: seq<Entry>)
      requires Valid() && Consistent() && |x| == dim
      modifies this`countEvals, this`countStatRuns, this`bestY, this`mean, this`qmean
      modifies this`numStored, this`numSorted, this`submissions, xs, ys, bestX
      ensures Valid() && Consistent()
      ensures submissions == old(submissions) + [Submission(y, x, evals, limit)]
      ensures CurrentTally() == Record(old(CurrentTally()), Submission(y, x, evals, limit))
      ensures Compacted(old(Entries()), kept, Keep(capacity))
      ensures SortDue() ==> IsEviction(old(Entries()), kept, Keep(capacity))
      ensures !SortDue() && Below(y, limit) && old(numStored) >= capacity - 1 ==>
                IsEviction(old(Entries()), kept, Keep(capacity))
      ensures !SortDue() && (!Below(y, limit) || old(numStored) < capacity - 1) ==> kept == old(Entries())
      ensures Below(y, limit) ==> Entries() == kept + [Entry(y, x)]
      ensures !Below(y, limit) ==> Entries() == kept
    {
      ghost var s := Submission(y, x, evals, limit);
      ghost var before := Entries();
      ghost var t := CurrentTally();
      ghost var t1 := t.(countEvals := t.countEvals + evals);
      ghost var due := SortDue();
      submissions := submissions + [s];
      RecordAllSnoc(Initial(dim), old(submissions), s);
      RecordSteps(t, s);
      IncrCountEvals(evals);
      assert CurrentTally() == t1;
      ghost var mid := Entries();
      ghost var full := numStored >= capacity - 1;
      assert !due ==> full == (old(numStored) >= capacity - 1);
      kept := mid;
      if Below(y, limit) {
        kept := AdmitResult(y, x);
      }
      ComposeCompactions(before, mid, kept, Keep(capacity), due, Below(y, limit), full);
      assert CurrentTally() == Record(t, s);
    }

    /** The accepted branch of add_result: one more accepted run, a better
        fitness becomes the best, the running statistics take in `y`, and
        the result is stored, after a compaction when the table is nearly
        full. */
    method AdmitResult(y: real, x: seq<real>) returns (ghost kept: seq<Entry>)
      requires Valid() && |x| == dim
      modifies this`countStatRuns, this`bestY, this`mean, this`qmean
      modifies this`numStored, this`numSorted, xs, ys, bestX
      ensures Valid()
      ensures CurrentTally() == Admit(old(CurrentTally()), y, x)
      ensures Compacted(old(Entries()), kept, Keep(capacity))
      ensures Entries() == kept + [Entry(y, x)]
      ensures old(numStored) >= capacity - 1 ==> IsEviction(old(Entries()), kept, Keep(capacity))
      ensures old(numStored) < capacity - 1 ==> kept == old(Entries())
    {
      ghost var t := CurrentTally();
      countStatRuns := countStatRuns + 1;
      TakeBest(y, x);
      ghost var best := CurrentTally();
      assert best == Admit(t, y, x).(mean := t.mean, qmean := t.qmean);
      MakeRoom();
      assert CurrentTally() == best;
      kept := Entries();
      var cnt := countStatRuns;
      qmean := WelfordQ(qmean, mean, y, cnt);
      mean := WelfordMean(mean, y, cnt);
      Push(y, x);
    }

    /** Compacts the table exactly when at most one free slot is left. */
    method MakeRoom()
      requires Valid()
      modifies this`numStored, this`numSorted, xs, ys
      ensures Valid() && numStored < capacity
      ensures Compacted(old(Entries()), Entries(), Keep(capacity))
      ensures old(numStored) >= capacity - 1 ==> IsEviction(old(Entries()), Entries(), Keep(capacity))
      ensures old(numStored) < capacity - 1 ==> Entries() == old(Entries())
    {
      if numStored >= capacity - 1 {
        var _, _ := Sort();
        KeepBelowCapacity(capacity);
      }
    }

    /** A fitness below the best makes `y` and `x` the best pair. */
    method TakeBest(y: real, x: seq<real>)
      requires Layout() && |x| == dim
      modifies this`bestY, bestX
      ensures Below(y, old(bestY)) ==> bestY == Fin(y) && bestX[..] == x
      ensures !Below(y, old(bestY)) ==> bestY == old(bestY) && bestX[..] == old(bestX[..])
    {
      if Below(y, bestY) {
        bestY := Fin(y);
        forall j | 0 <= j < dim {
          bestX[j] := x[j];
        }
        assert bestX[..] == x;
      }
    }

    // -------------------------------------------------------------------------
    // Retry budget

    /** Grants one more run iff fewer than `limit` were granted, counting it. */
    method GetRunsCompareIncr(limit: int) returns (granted: bool)
      modifies this`countRuns
      ensures (granted, countRuns) == GateStep(old(countRuns), limit)
    {
      if countRuns < limit {
        countRuns := countRuns + 1;
        granted := true;
      } else {
        granted := false;
      }
    }

    // -------------------------------------------------------------------------
    // Statistics

    /** The evaluation count is the sum of the evaluations of all submissions. */
    method GetCountEvals() returns (c: int)
      requires Consistent()
      ensures c == SumEvals(submissions)
    {
      c := countEvals;
      EvalCountIsSum(Initial(dim), submissions);
    }

    /** The best fitness is +infinity before any result was accepted and
        afterwards the smallest accepted fitness. */
    method GetYBest() returns (y: ExtReal)
      requires Consistent()
      ensures y == bestY
      ensures y.PosInf? <==> AcceptedYs(submissions) == []
      ensures !y.PosInf? ==>
                exists k :: 0 <= k < |submissions| && Accepts(submissions[k]) && y == Fin(submissions[k].y)
      ensures forall i :: 0 <= i < |AcceptedYs(submissions)| ==> AtMost(y, Fin(AcceptedYs(submissions)[i]))
    {
      y := bestY;
      BestIsMinimum(dim, submissions);
    }

    /** The best vector is still the zero vector before any result was
        accepted, and afterwards the vector of an accepted result whose
        fitness is the best. */
    method GetXBest() returns (x: seq<real>)
      requires Consistent()
      ensures AcceptedYs(submissions) == [] ==> x == Initial(dim).bestX
      ensures AcceptedYs(submissions) != [] ==>
                exists k :: 0 <= k < |submissions| && Below(submissions[k].y, submissions[k].limit) &&
                  bestY == Fin(submissions[k].y) && x == submissions[k].x
    {
      x := bestX[..];
      BestIsMinimum(dim, submissions);
    }

    /** The running mean is the mean of the accepted fitness values, and still
        its initial 0 before any result was accepted. */
    method GetYMean() returns (m: real)
      requires Consistent()
      ensures AcceptedYs(submissions) != [] ==> m == Sum(AcceptedYs(submissions)) / |AcceptedYs(submissions)| as real
      ensures AcceptedYs(submissions) == [] ==> m == 0.0
    {
      m := mean;
      WelfordIsExact(dim, submissions);
      NothingAcceptedKeepsStatistics(dim, submissions);
    }

    /** The square of get_y_standard_dev: the population variance of the
        accepted fitness values, 0 when none was accepted. */
    method GetYVariance() returns (v: real)
      requires Consistent()
      ensures v == PopulationVariance(AcceptedYs(submissions))
      ensures AcceptedYs(submissions) == [] ==> v == 0.0
    {
      var cnt := countStatRuns;
      v := if cnt <= 0 then 0.0 else qmean / cnt as real;
      WelfordIsExact(dim, submissions);
    }

    // -------------------------------------------------------------------------
    // Improvement trace

    /** The fitness wrapper: `y` is the fitness the wrapped function returned
        and `elapsed` the seconds since the store was built. A strict
        improvement on the wrapper's best is written to the trace slot `si`,
        which advances while it is below the last slot; in the last slot
        later improvements overwrite each other beyond the visible trace. */
    method Wrapper(y: real, elapsed: real) returns (r: real)
      requires TraceValid() && statisticNum > 0 && elapsed >= 0.0
      modifies this`sevals, this`bval, this`si, time, val
      ensures TraceValid()
      ensures r == y && sevals == old(sevals) + 1
      ensures !Below(y, old(bval)) ==> bval == old(bval) && si == old(si) && unchanged(time, val)
      ensures Below(y, old(bval)) ==> bval == Fin(y) && time[old(si)] == elapsed && val[old(si)] == y
      ensures Below(y, old(bval)) && old(si) < statisticNum - 1 ==>
                si == old(si) + 1 &&
                RecordedTimes() == old(RecordedTimes()) + [elapsed] &&
                RecordedValues() == old(RecordedValues()) + [y]
      ensures Below(y, old(bval)) && old(si) == statisticNum - 1 ==>
                si == old(si) &&
                RecordedTimes() == old(RecordedTimes()) && RecordedValues() == old(RecordedValues())
    {
      sevals := sevals + 1;
      if Below(y, bval) {
        bval := Fin(y);
        var s := si;
        if s < statisticNum - 1 {
          si := s + 1;
        }
        time[s] := elapsed;
        val[s] := y;
      }
      r := y;
    }

    /** `num` samples of the trace at evenly spaced times: sample `i` is the
        value of the first improvement recorded at or after the upper edge
        of bucket `i`. A negative `num` gives no samples. */
    method GetStatistics(num: int) returns (conv: seq<real>)
      requires TraceValid() && si > 0 && num != 0
      ensures num < 0 ==> conv == []
      ensures num > 0 ==> conv == Resample(RecordedTimes(), RecordedValues(), num)
      ensures forall i, j :: 0 <= i < j < |conv| ==> conv[i] >= conv[j]
      ensures forall i :: 0 <= i < |conv| ==> conv[i] in RecordedValues()
    {
      var ts := time[..si];
      var vs := val[..si];
      conv := Sample(ts, vs, num);
      if num > 0 {
        ResampleNonIncreasing(ts, vs, num);
        ResampleRecorded(ts, vs, num);
      }
    }
  }
}
