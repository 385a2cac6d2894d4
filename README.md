# fcmaes retry store, modelled in Dafny

This project models `Store`, the thread-safe results store of fcmaes's
parallel retry (`fcmaes/retry.py`). Many optimization workers share one
store. Each worker asks the store for permission to start another run
(`get_runs_compare_incr`). Each worker hands its result back through
`add_result`. The store:

- counts evaluations;
- keeps the best fitness and its vector;
- keeps a running Welford mean and sum of squared deviations of the accepted
  fitness values;
- stores accepted results in a bounded table of flat arrays. When the table
  is nearly full, and every `check_interval` runs, the table is compacted:
  entries are ranked by fitness with `argsort`, and the best
  `int(0.9 * capacity)` are kept at the front.

Optionally, the fitness function is wrapped (`wrapper`) to record every
strict improvement with its time. `get_statistics` resamples that trace at
evenly spaced times.

Modules:

- `Values`: `Option`, `Result`, and `ExtReal`, which holds the fitness
  values plus `+inf` (the initial best and the default `limit`).
- `Bounds`: `_convertBounds` on a list of `(min, max)` pairs.
- `Ranking`: the table's entries and numpy's `argsort` as an index
  insertion sort. It also defines what an eviction keeps (`IsEviction`): the
  front of some ascending ranking of the entries, up to `keep` of them. Ties
  are left open, since `argsort` is not stable.
- `Ledger`: the scalar record as a value (`Tally`). `Record` is one
  `add_result` on it, and `RecordAll` is the fold over all submissions. It
  also holds the Welford lemmas.
- `Budget`: the compare-and-increment gate.
- `Trace`: the resampling step function of `get_statistics`, and its loop.
- `Retry`: the `Store` class. It has array fields for `xs`, `ys`, `best_x`,
  `time` and `val`, and mutable counters. Three invariants describe it:
  - `Valid`: shapes, and the table count within capacity.
  - `Consistent`: the scalar record equals `RecordAll` over the ghost list of
    everything submitted.
  - `TraceValid`: the visible trace strictly decreases, at non-negative
    times.

## Model

| member | source | states |
|---|---|---|
| Bounds.ConvertBounds | fcmaes/retry.py:397-412 | `None` raises the "need to be defined" error; the result is `Ok` exactly for a non-empty list of two-element rows; the lower and upper vectors are the first and second column and have one value per row |
| Bounds.ConvertPairsRoundTrip | fcmaes/retry.py:406-412 | converting the pairs built from two equal-length non-empty vectors gives those vectors back |
| Bounds.ConvertedPairsRebuild | fcmaes/retry.py:406-412 | a well-formed pair list is rebuilt exactly from the two converted vectors |
| Budget.GateStep | fcmaes/retry.py:346-350 | one gate call grants iff the counter is below `limit`, adds one to the counter exactly when it grants, and never takes a counter within the limit past it |
| Budget.GateGrantsMin | fcmaes/retry.py:344-350 | `n` successive gate calls grant exactly `min(n, max(0, limit - count))` runs; the counter grows by the number granted and never passes a limit it started within |
| Retry.Store.GetRunsCompareIncr | fcmaes/retry.py:344-350 | grants iff the run counter is below `limit`, and counts the run exactly when it grants |
| Ledger.Record | fcmaes/retry.py:287-305 | evaluations always count; a rejected result changes nothing else; an accepted one adds one accepted run; the best fitness only decreases, and changes together with its vector, to exactly the new result when it is strictly better |
| Ledger.Admit | fcmaes/retry.py:292-302 | the accepted branch: one more accepted run, the evaluation count untouched, a strictly better fitness with its vector becomes the best, otherwise the best pair is kept |
| Ledger.RecordAllSnoc | fcmaes/retry.py:287-305 | the record after one more `add_result` is that call applied to the record before |
| Ledger.EvalCountIsSum | fcmaes/retry.py:352-355 | the evaluation count is the sum of the evaluations of all submissions, accepted or not |
| Ledger.BestIsMinimum | fcmaes/retry.py:291-295 | the best fitness is `+inf` iff nothing was accepted, is at most every accepted fitness, and is the fitness of an accepted submission whose vector is the best vector (the zero vector before any acceptance) |
| Ledger.WelfordStep | fcmaes/retry.py:299-302 | one Welford update keeps `count * mean == sum` and `qmean == sum of squares - count * mean^2` for the accepted values plus the new one |
| Ledger.SqDevExpand | fcmaes/retry.py:328-330 | the sum of squared deviations from `m` expands to `sum of squares - 2 m sum + n m^2` |
| Ledger.WelfordMeaning | fcmaes/retry.py:325-330 | under the Welford invariant the mean is the arithmetic mean, `qmean` is the sum of squared deviations from it, and `qmean / count` (0 with no values) is the population variance |
| Ledger.NothingAcceptedKeepsStatistics | fcmaes/retry.py:290-302 | until a result is accepted, the running mean and sum of squared deviations keep the zero values of a fresh store |
| Ledger.WelfordIsExact | fcmaes/retry.py:299-302 | after any sequence of `add_result` calls, the running mean and `qmean / count` are the exact mean and population variance of the accepted fitness values |
| Ranking.Keep | fcmaes/retry.py:280 | `int(0.9 * capacity)`: the largest count whose tenfold is at most `9 * capacity`, never more than `capacity` |
| Ranking.InsertIndex | fcmaes/retry.py:274 | inserting index `k` into an index list gives one more index, all still inside the array, with exactly `k` added to the multiset |
| Ranking.ArgSort | fcmaes/retry.py:274 | numpy's argsort: one index per value, all inside the array, in an order under which the values ascend |
| Ranking.ArgSortPermutes | fcmaes/retry.py:273-279 | any sequence taken in argsort order is a permutation of itself: the ranking loses and duplicates nothing |
| Ranking.ArgSortPrefixSorted | fcmaes/retry.py:274 | the argsort index order makes the fitness values ascend |
| Ranking.InsertIndexSorted | fcmaes/retry.py:274 | inserting an index into an ascending index list keeps it ascending |
| Ranking.RankEntries | fcmaes/retry.py:273-279 | the entries taken in argsort order of their fitness are ascending and a permutation of the stored entries |
| Ranking.SortedPrefixIsEviction | fcmaes/retry.py:280-284 | keeping the first `min(n, keep)` of an ascending permutation of the entries is an eviction |
| Ranking.EvictionKeepsBest | fcmaes/retry.py:270-285 | an eviction keeps `min(n, keep)` entries, ascending, drawn from the old ones, and every kept fitness is at most every dropped fitness |
| Ranking.EvictionTransitive | fcmaes/retry.py:297-298 | an eviction of an evicted table is itself an eviction of the original table |
| Ranking.ComposeCompactions | fcmaes/retry.py:290-298 | the periodic compaction followed by the one before the append: the table is evicted iff either was taken, and otherwise untouched |
| Ranking.SlotWrite | fcmaes/retry.py:338-339 | writing a vector over one slot of the flat array sets that slot and leaves every other slot as it was |
| Retry.Store.constructor | fcmaes/retry.py:182-224 | the bounds are converted, `dim` is their length, `delta` is `upper - lower` per dimension; the table is empty, no run counted, the record is that of a fresh store, the trace empty with best `+inf`; all five arrays are newly allocated, so the caller may update the new store |
| Retry.Store.SetY | fcmaes/retry.py:341-342 | slot `i` gets fitness `y`; every other slot's fitness is unchanged |
| Retry.Store.SetX | fcmaes/retry.py:338-339 | slot `i` gets vector `x`; every other slot's vector is unchanged |
| Retry.Store.GetX | fcmaes/retry.py:307-308 | returns the `dim` values of slot `i`, so it reads back what `SetX` wrote |
| Retry.Store.Replace | fcmaes/retry.py:266-268 | slot `i` gets `(y, x)`; every other slot is unchanged |
| Retry.Store.Gather | fcmaes/retry.py:275-279 | the `sortRuns` loop: entry `j` is the fitness and the vector of slot `yi[j]`, each vector of length `dim` |
| Retry.Store.WriteFront | fcmaes/retry.py:281-282 | the `replace` loop: slots `0 .. k-1` get the first `k` ranked entries, and every later slot keeps its fitness and vector |
| Retry.Store.RankedEntries | fcmaes/retry.py:272-279 | the list built from the argsort order is ascending in fitness and a permutation of the stored entries, with every vector of length `dim` |
| Retry.Store.Sort | fcmaes/retry.py:270-285 | returns and stores `min(num_stored, int(0.9 * capacity))` as both counts; the table becomes the front of an ascending permutation of the old entries, which is an eviction |
| Retry.Store.IncrCountEvals | fcmaes/retry.py:352-355 | the evaluation count grows by `evals`; when the run counter is one short of a multiple of `check_interval` the table is evicted, otherwise it is untouched |
| Retry.Store.AddResult | fcmaes/retry.py:287-305 | the scalar record becomes `Record` of the old one, so the ledger invariant is kept; the table is evicted (once overall) when the periodic check is due or when an accepted result finds at least `capacity - 1` entries stored, and is untouched otherwise; an accepted result is then appended behind the kept entries while a rejected one adds nothing |
| Retry.Store.AdmitResult | fcmaes/retry.py:292-305 | the accepted branch: the record becomes `Admit` of the old one; the table is evicted exactly when at least `capacity - 1` entries are stored, and untouched otherwise; the result is appended behind the kept entries |
| Retry.Store.MakeRoom | fcmaes/retry.py:297-298 | afterwards fewer than `capacity` entries are stored; the table is evicted exactly when it held at least `capacity - 1`, and untouched otherwise |
| Retry.Store.TakeBest | fcmaes/retry.py:293-295 | a strictly better fitness becomes the best, and its vector is copied into `best_x`; otherwise both stay |
| Retry.Store.Push | fcmaes/retry.py:303-305 | the table holds its old entries plus `(y, x)` behind them |
| Retry.Store.GetCountEvals | fcmaes/retry.py:332-333 | the evaluation count is the sum of the evaluations of all submissions |
| Retry.Store.GetYBest | fcmaes/retry.py:319-320 | returns `best_y`: `+inf` iff nothing was accepted, otherwise the fitness of an accepted submission that is at most every accepted fitness, i.e. the minimum |
| Retry.Store.GetXBest | fcmaes/retry.py:310-311 | the zero vector before any acceptance, otherwise the vector of an accepted submission whose fitness is the best |
| Retry.Store.GetYMean | fcmaes/retry.py:325-326 | with at least one accepted result, the arithmetic mean of the accepted fitness values; 0, the initial value, before any |
| Retry.Store.GetYVariance | fcmaes/retry.py:328-330 | the square of the standard deviation: the population variance of the accepted fitness values, 0 when none was accepted |
| Retry.Store.Wrapper | fcmaes/retry.py:227-242 | returns the fitness and counts one evaluation; a strict improvement on the wrapper's best becomes the best and is written at slot `si`, which advances (extending the visible trace by that time and value) while below the last slot; anything else leaves the trace untouched; the trace invariant is kept |
| Retry.Store.GetStatistics | fcmaes/retry.py:248-261 | for `num > 0`, exactly `Resample` of the visible trace; the samples never increase and each is a recorded value; a negative `num` gives no samples |
| Trace.Sample | fcmaes/retry.py:251-261 | the resampling loop computes exactly `Resample`: sample `i` is the value at the first recorded time reaching `(i + 1) * 0.9999999 * last_time / num` |
| Trace.Advance | fcmaes/retry.py:257-259 | the inner loop stops at the first recorded time reaching the bucket edge |
| Trace.FirstAtLeast | fcmaes/retry.py:257-259 | the index found has every earlier time below the bound and its own time at or above it |
| Trace.ResampleNonIncreasing | fcmaes/retry.py:248-261 | samples of a non-increasing trace never increase |
| Trace.ResampleRecorded | fcmaes/retry.py:248-261 | every sample is a recorded value, and for a non-increasing trace lies between the first and the last |
| Trace.BucketWithin | fcmaes/retry.py:252-257 | every bucket edge lies between 0 and the last recorded time, so the inner loop never runs past the trace |

## Left out

- Logging, `dump`, plotting, and the orchestration around the store are not
  part of this model. That covers `retry`, `_retry_loop`, process start-up,
  `eval_num` and `get_improvements`. So are the simple getters `get_xs`,
  `get_ys`, `get_y` and `get_count_runs`, which only read a field or array.
- The fitness function call and the clock are parameters. `Wrapper` receives
  the fitness `y` and the elapsed time `elapsed`; `dtime` is not part of this
  model.
- Concurrency: each locked method is one atomic step. `wrapper` runs without
  the lock in the original; the model treats it as atomic too.
- Floating point: fitness values, times and statistics are exact reals. NaN
  and infinite fitness values are not modelled, except `+inf` as the initial
  best and default limit. `int(0.9 * capacity)` is modelled as
  `(9 * capacity) / 10`. `_convertBounds`'s `isfinite` check is vacuous on
  reals.
- Fixed-width counters (`c_int`, `c_long`) are unbounded here; wrap-around is
  not modelled.
- Retry.Store.GetYVariance: returns the variance, not the standard
  deviation, since `sqrt` is not modelled.
- Bounds.ConvertBounds: only the list-of-pairs input is modelled. The
  `scipy.optimize.Bounds` branch and a flat list of numbers are left out.
  Numpy's ragged-array error is folded into `Malformed`.
- Retry.Store.constructor: requires `capacity > 0` and
  `check_interval > 0`. The original accepts 0, but then `incr_count_evals`
  divides by zero and `add_result` writes outside the table. It also
  requires bounds that `ConvertBounds` accepts: the `ValueError` that
  `Store.__init__` raises through `_convertBounds` is modelled by
  `Bounds.ConvertBounds`'s error results alone.
- Slot access requires a slot inside the table and a vector of length
  `dim`. Python's slicing would read a short slice, or raise, instead.
- Retry.Store.GetStatistics: requires at least one recorded improvement and
  `num != 0`, because the original raises on `ts[-1]` and divides by `num`.
  The sample is the first record at or after each bucket edge, as the code
  does. Once `si` reaches `statistic_num - 1`, later improvements overwrite
  the last slot, which the readers never see.
