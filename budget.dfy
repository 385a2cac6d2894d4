/** The retry-budget gate: a compare-and-increment of the run counter. Each
    call is atomic, so any interleaving of calls from many workers is a
    sequence of calls, and the worker making a call does not affect it. */
module Budget {
  import opened Values

  /** One gate call: grant (and count the run) iff the counter is below the limit. */
  function GateStep(count: nat, limit: int): (r: (bool, nat))
    ensures r.0 <==> count < limit
    ensures r.1 == count + (if r.0 then 1 else 0)
    ensures count <= limit ==> r.1 <= limit
  {
    if count < limit then (true, count + 1) else (false, count)
  }

  /** `n` gate calls in a row: how many were granted, and the final counter. */
  function GateRun(count: nat, limit: int, n: nat): (nat, nat)
    decreases n
  {
    if n == 0 then (0, count)
    else
      var (granted, next) := GateStep(count, limit);
      var (grants, final) := GateRun(next, limit, n - 1);
      ((if granted then 1 else 0) + grants, final)
  }

  /** `n` calls grant exactly min(n, limit - count) runs (none once the limit is
      reached), each grant counts once, and a counter that starts within the
      limit stays within it. From 0 this is min(n, limit) grants. */
  lemma {:induction false} GateGrantsMin(count: nat, limit: int, n: nat)
    ensures GateRun(count, limit, n).0 == Min(n, Max(0, limit - count))
    ensures GateRun(count, limit, n).1 == count + GateRun(count, limit, n).0
    ensures count <= limit ==> GateRun(count, limit, n).1 <= limit
    decreases n
  {
    if n > 0 {
      GateGrantsMin(GateStep(count, limit).1, limit, n - 1);
    }
  }
}
