/** The ranking side of the store: entries laid out in flat arrays, the index
    sort (numpy's argsort) used to rank them, and what an eviction keeps. */
module Ranking {
  import opened Values

  /** One stored retry result: its fitness and its solution vector. */
  datatype Entry = Entry(y: real, x: seq<real>)

  /** The `dim` values of slot `i` in a flat array of vectors, which occupies
      indices `[i*dim, i*dim + dim)`; empty when the slot lies outside. */
  function SlotOf(flat: seq<real>, i: nat, dim: nat): (slot: seq<real>)
  {
    if i * dim + dim <= |flat| then flat[i * dim .. i * dim + dim] else []
  }

  /** The first `n` entries stored in the fitness array and the flat vector array. */
  function EntriesOf(ys: seq<real>, flat: seq<real>, n: nat, dim: nat): (es: seq<Entry>)
    requires n <= |ys|
    ensures |es| == n
  {
    seq(n, i requires 0 <= i < n => Entry(ys[i], SlotOf(flat, i, dim)))
  }

  lemma EntryAt(ys: seq<real>, flat: seq<real>, n: nat, dim: nat, p: nat)
    requires p < n <= |ys|
    ensures EntriesOf(ys, flat, n, dim)[p] == Entry(ys[p], SlotOf(flat, p, dim))
  {
  }

  /** How many entries an eviction keeps: int(0.9 * capacity). */
  function Keep(capacity: nat): (k: nat)
    ensures k <= capacity
    ensures 10 * k <= 9 * capacity < 10 * k + 10
  {
    (9 * capacity) / 10
  }

  lemma KeepBelowCapacity(capacity: nat)
    requires capacity > 0
    ensures Keep(capacity) < capacity
  {
  }

  /** Multiplication by a natural number is monotone. */
  lemma {:induction false} MulMonotone(a: nat, b: nat, dim: nat)
    requires a <= b
    ensures a * dim <= b * dim
  {
    if a < b {
      MulMonotone(a, b - 1, dim);
      assert b * dim == (b - 1) * dim + dim;
    }
  }

  /** Slot `i` of a store with `capacity` slots lies inside the flat array. */
  lemma SlotWithin(i: nat, dim: nat, capacity: nat)
    requires i < capacity
    ensures i * dim + dim <= capacity * dim
  {
    MulMonotone(i + 1, capacity, dim);
    assert (i + 1) * dim == i * dim + dim;
  }

  /** Two different slots do not overlap. */
  lemma SlotsApart(p: nat, i: nat, dim: nat)
    requires p != i
    ensures p * dim + dim <= i * dim || i * dim + dim <= p * dim
  {
    if p < i {
      SlotWithin(p, dim, i);
    } else {
      SlotWithin(i, dim, p);
    }
  }

  /** Writing `x` over slot `i` of a flat array sets that slot and leaves
      every other slot as it was. */
  lemma SlotWrite(before: seq<real>, after: seq<real>, i: nat, dim: nat, x: seq<real>)
    requires |before| == |after| && i * dim + dim <= |after|
    requires after[i * dim .. i * dim + dim] == x
    requires forall m :: 0 <= m < |after| && (m < i * dim || i * dim + dim <= m) ==> after[m] == before[m]
    ensures SlotOf(after, i, dim) == x
    ensures forall p :: p != i ==> SlotOf(after, p, dim) == SlotOf(before, p, dim)
  {
    forall p: nat | p != i
      ensures SlotOf(after, p, dim) == SlotOf(before, p, dim)
    {
      if p * dim + dim <= |after| {
        SlotsApart(p, i, dim);
        assert after[p * dim .. p * dim + dim] == before[p * dim .. p * dim + dim];
      }
    }
  }

  predicate SortedByY(s: seq<Entry>)
  {
    forall i, j :: 0 <= i < j < |s| ==> s[i].y <= s[j].y
  }

  /** `s` arranges the entries of `before` in ascending order of fitness. */
  ghost predicate IsRanking(before: seq<Entry>, s: seq<Entry>)
  {
    multiset(s) == multiset(before) && SortedByY(s)
  }

  /** `after` is what an eviction of `before` may leave: the first `keep`
      entries (all of them if there are fewer) of an arrangement of `before`
      in ascending order of fitness. Ties may fall either way. */
  ghost predicate IsEviction(before: seq<Entry>, after: seq<Entry>, keep: nat)
  {
    exists s :: IsRanking(before, s) && after == s[..Min(|s|, keep)]
  }

  /** Either nothing was evicted or an eviction took place. */
  ghost predicate Compacted(before: seq<Entry>, after: seq<Entry>, keep: nat)
  {
    after == before || IsEviction(before, after, keep)
  }

  // ---------------------------------------------------------------------------
  // argsort

  predicate IndicesBelow(p: seq<nat>, n: nat)
  {
    forall i :: 0 <= i < |p| ==> p[i] < n
  }

  /** The values of `a` taken in the order of the indices `p` ascend. */
  predicate SortedIndices(a: seq<real>, p: seq<nat>)
    requires IndicesBelow(p, |a|)
  {
    forall i, j :: 0 <= i < j < |p| ==> a[p[i]] <= a[p[j]]
  }

  /** `s` taken in the order of the indices `p`. */
  function Pick<T>(s: seq<T>, p: seq<nat>): (r: seq<T>)
    requires IndicesBelow(p, |s|)
    ensures |r| == |p|
  {
    seq(|p|, i requires 0 <= i < |p| => s[p[i]])
  }

  /** Inserts index `k` into the index list `p`, behind every leading index
      whose value is not larger. */
  function InsertIndex(a: seq<real>, k: nat, p: seq<nat>): (r: seq<nat>)
    requires k < |a| && IndicesBelow(p, |a|)
    ensures |r| == |p| + 1 && IndicesBelow(r, |a|)
    ensures multiset(r) == multiset(p) + multiset{k}
  {
    if p == [] then [k]
    else if a[k] < a[p[0]] then [k] + p
    else
      assert p == [p[0]] + p[1..];
      [p[0]] + InsertIndex(a, k, p[1..])
  }

  /** Inserting into an ascending index list keeps it ascending. */
  lemma {:induction false} InsertIndexSorted(a: seq<real>, k: nat, p: seq<nat>)
    requires k < |a| && IndicesBelow(p, |a|) && SortedIndices(a, p)
    ensures SortedIndices(a, InsertIndex(a, k, p))
  {
    if p != [] && a[p[0]] <= a[k] {
      var rest := InsertIndex(a, k, p[1..]);
      InsertIndexSorted(a, k, p[1..]);
      HeadBelowRest(a, k, p, rest);
    }
  }

  /** The head of a sorted index list stays below the rest after `k`, which is
      not below it, is inserted into the rest. */
  lemma HeadBelowRest(a: seq<real>, k: nat, p: seq<nat>, rest: seq<nat>)
    requires k < |a| && IndicesBelow(p, |a|) && SortedIndices(a, p) && p != [] && a[p[0]] <= a[k]
    requires IndicesBelow(rest, |a|) && SortedIndices(a, rest)
    requires multiset(rest) == multiset(p[1..]) + multiset{k}
    ensures IndicesBelow([p[0]] + rest, |a|) && SortedIndices(a, [p[0]] + rest)
  {
    forall j | 0 <= j < |rest| ensures a[p[0]] <= a[rest[j]] {
      assert rest[j] in multiset(rest);
      if rest[j] != k {
        assert rest[j] in multiset(p[1..]);
        var m :| 0 <= m < |p[1..]| && p[1..][m] == rest[j];
        assert p[m + 1] == rest[j];
      }
    }
    var r := [p[0]] + rest;
    forall i, j | 0 <= i < j < |r| ensures a[r[i]] <= a[r[j]] {
      if i > 0 {
        assert r[i] == rest[i - 1] && r[j] == rest[j - 1];
      } else {
        assert r[j] == rest[j - 1];
      }
    }
  }

  /** The indices `0 .. n-1`, each inserted in turn. */
  function ArgSortPrefix(a: seq<real>, n: nat): (p: seq<nat>)
    requires n <= |a|
    ensures |p| == n && IndicesBelow(p, |a|)
  {
    if n == 0 then [] else InsertIndex(a, n - 1, ArgSortPrefix(a, n - 1))
  }

  /** The indices `0 .. n-1` come out in ascending order of their values. */
  lemma {:induction false} ArgSortPrefixSorted(a: seq<real>, n: nat)
    requires n <= |a|
    ensures SortedIndices(a, ArgSortPrefix(a, n))
  {
    if n > 0 {
      var p := ArgSortPrefix(a, n - 1);
      ArgSortPrefixSorted(a, n - 1);
      InsertIndexSorted(a, n - 1, p);
      assert ArgSortPrefix(a, n) == InsertIndex(a, n - 1, p);
    }
  }

  /** numpy's argsort: an index order under which `a` ascends. */
  function ArgSort(a: seq<real>): (p: seq<nat>)
    ensures |p| == |a| && IndicesBelow(p, |a|) && SortedIndices(a, p)
  {
    ArgSortPrefixSorted(a, |a|);
    ArgSortPrefix(a, |a|)
  }

  lemma PickCons<T>(e: seq<T>, h: nat, p: seq<nat>)
    requires h < |e| && IndicesBelow(p, |e|)
    ensures IndicesBelow([h] + p, |e|)
    ensures Pick(e, [h] + p) == [e[h]] + Pick(e, p)
  {
  }

  lemma {:induction false} PickInsert<T>(a: seq<real>, e: seq<T>, k: nat, p: seq<nat>)
    requires |e| == |a| && k < |a| && IndicesBelow(p, |a|)
    ensures multiset(Pick(e, InsertIndex(a, k, p))) == multiset(Pick(e, p)) + multiset{e[k]}
  {
    var r := InsertIndex(a, k, p);
    if p == [] {
      assert r == [k] + [];
      PickCons(e, k, []);
    } else if a[k] < a[p[0]] {
      assert r == [k] + p;
      PickCons(e, k, p);
    } else {
      var rest := InsertIndex(a, k, p[1..]);
      assert r == [p[0]] + rest;
      PickInsert(a, e, k, p[1..]);
      PickCons(e, p[0], rest);
      assert p == [p[0]] + p[1..];
      PickCons(e, p[0], p[1..]);
    }
  }

  lemma MultisetPrefixStep<T>(e: seq<T>, n: nat)
    requires 0 < n <= |e|
    ensures multiset(e[..n]) == multiset(e[..n - 1]) + multiset{e[n - 1]}
  {
    assert e[..n] == e[..n - 1] + [e[n - 1]];
  }

  lemma {:induction false} ArgSortPrefixPermutes<T>(a: seq<real>, e: seq<T>, n: nat)
    requires |e| == |a| && n <= |a|
    ensures multiset(Pick(e, ArgSortPrefix(a, n))) == multiset(e[..n])
  {
    if n > 0 {
      ArgSortPrefixPermutes(a, e, n - 1);
      PickInsert(a, e, n - 1, ArgSortPrefix(a, n - 1));
      MultisetPrefixStep(e, n);
    }
  }

  /** Taking any sequence as long as `a` in argsort order permutes it: the
      ranking loses and duplicates nothing. */
  lemma ArgSortPermutes<T>(a: seq<real>, e: seq<T>)
    requires |e| == |a|
    ensures multiset(Pick(e, ArgSort(a))) == multiset(e)
  {
    ArgSortPrefixPermutes(a, e, |a|);
    assert e[..|a|] == e;
  }

  /** Entries taken in argsort order of their fitness values are ascending
      and a permutation of the entries. */
  lemma RankEntries(ys: seq<real>, es: seq<Entry>)
    requires |es| == |ys| && forall i :: 0 <= i < |es| ==> es[i].y == ys[i]
    ensures multiset(Pick(es, ArgSort(ys))) == multiset(es)
    ensures SortedByY(Pick(es, ArgSort(ys)))
  {
    ArgSortPermutes(ys, es);
    var p := ArgSort(ys);
    var r := Pick(es, p);
    forall i, j | 0 <= i < j < |r|
      ensures r[i].y <= r[j].y
    {
      assert r[i] == es[p[i]] && r[j] == es[p[j]];
    }
  }

  /** A table whose first `k` slots hold `runs[..k]` stores exactly those entries. */
  lemma EntriesOfFront(ys: seq<real>, flat: seq<real>, k: nat, dim: nat, runs: seq<Entry>)
    requires k <= |ys| && k <= |runs|
    requires forall j :: 0 <= j < k ==> ys[j] == runs[j].y && SlotOf(flat, j, dim) == runs[j].x
    ensures EntriesOf(ys, flat, k, dim) == runs[..k]
  {
  }

  // ---------------------------------------------------------------------------
  // eviction

  lemma SplitMultiset<T>(s: seq<T>, k: nat)
    requires k <= |s|
    ensures multiset(s) - multiset(s[..k]) == multiset(s[k..])
    ensures multiset(s[..k]) <= multiset(s)
  {
    assert s == s[..k] + s[k..];
    assert multiset(s) == multiset(s[..k]) + multiset(s[k..]);
  }

  lemma FrontBelowBack(s: seq<Entry>, k: nat)
    requires k <= |s| && SortedByY(s)
    ensures SortedByY(s[..k])
    ensures forall a, d :: a in s[..k] && d in multiset(s[k..]) ==> a.y <= d.y
  {
    forall a, d | a in s[..k] && d in multiset(s[k..])
      ensures a.y <= d.y
    {
      var i :| 0 <= i < k && s[..k][i] == a;
      assert d in s[k..];
      var j :| 0 <= j < |s| - k && s[k..][j] == d;
      assert s[i] == a && s[k + j] == d;
    }
  }

  /** Keeping the front of an ascending permutation of the entries is an eviction. */
  lemma SortedPrefixIsEviction(before: seq<Entry>, s: seq<Entry>, keep: nat)
    requires multiset(s) == multiset(before) && SortedByY(s)
    ensures IsEviction(before, s[..Min(|s|, keep)], keep)
  {
    EvictionByRanking(before, s, keep);
  }

  lemma EvictionByRanking(before: seq<Entry>, s: seq<Entry>, keep: nat)
    requires IsRanking(before, s)
    ensures IsEviction(before, s[..Min(|s|, keep)], keep)
  {
  }

  /** What an eviction leaves: `min(|before|, keep)` entries of `before`, each
      one taken at most as often as it occurs there, in ascending order, and
      none of them worse than any entry that was dropped. */
  lemma EvictionKeepsBest(before: seq<Entry>, after: seq<Entry>, keep: nat)
    requires IsEviction(before, after, keep)
    ensures |after| == Min(|before|, keep)
    ensures SortedByY(after)
    ensures multiset(after) <= multiset(before)
    ensures forall a, d :: a in after && d in multiset(before) - multiset(after) ==> a.y <= d.y
  {
    var s :| IsRanking(before, s) && after == s[..Min(|s|, keep)];
    var k := Min(|s|, keep);
    assert |s| == |before| by {
      assert |multiset(s)| == |multiset(before)|;
    }
    SplitMultiset(s, k);
    FrontBelowBack(s, k);
  }

  lemma ConcatSorted(p: seq<Entry>, q: seq<Entry>)
    requires SortedByY(p) && SortedByY(q)
    requires forall i, j :: 0 <= i < |p| && 0 <= j < |q| ==> p[i].y <= q[j].y
    ensures SortedByY(p + q)
  {
    var r := p + q;
    forall i, j | 0 <= i < j < |r|
      ensures r[i].y <= r[j].y
    {
      if i >= |p| {
        assert r[i] == q[i - |p|] && r[j] == q[j - |p|];
      } else if j >= |p| {
        assert r[i] == p[i] && r[j] == q[j - |p|];
      }
    }
  }

  /** Any rearrangement of the front of an ascending sequence stays below its back. */
  lemma RearrangedFrontBelowBack(s: seq<Entry>, k: nat, f: seq<Entry>)
    requires k <= |s| && SortedByY(s) && multiset(f) == multiset(s[..k])
    ensures SortedByY(s[k..])
    ensures forall i, j :: 0 <= i < |f| && 0 <= j < |s[k..]| ==> f[i].y <= s[k..][j].y
  {
    forall i, j | 0 <= i < |f| && 0 <= j < |s[k..]|
      ensures f[i].y <= s[k..][j].y
    {
      assert f[i] in multiset(s[..k]);
      var m :| 0 <= m < k && s[..k][m] == f[i];
      assert s[m] == f[i] && s[k..][j] == s[k + j];
    }
    forall i, j | 0 <= i < j < |s[k..]|
      ensures s[k..][i].y <= s[k..][j].y
    {
      assert s[k..][i] == s[k + i] && s[k..][j] == s[k + j];
    }
  }

  /** Re-ranking the front of a ranking leaves a ranking. */
  lemma RerankFront(a: seq<Entry>, s: seq<Entry>, k: nat, f: seq<Entry>)
    requires IsRanking(a, s) && k <= |s| && IsRanking(s[..k], f)
    ensures IsRanking(a, f + s[k..])
  {
    SplitMultiset(s, k);
    assert s == s[..k] + s[k..];
    assert multiset(f + s[k..]) == multiset(s);
    RearrangedFrontBelowBack(s, k, f);
    ConcatSorted(f, s[k..]);
  }

  /** Two evictions in a row are one eviction (the second keeps at most what
      the first left, so it keeps all of it). */
  lemma EvictionTransitive(a: seq<Entry>, b: seq<Entry>, c: seq<Entry>, keep: nat)
    requires IsEviction(a, b, keep) && IsEviction(b, c, keep)
    ensures IsEviction(a, c, keep)
  {
    var s1 :| IsRanking(a, s1) && b == s1[..Min(|s1|, keep)];
    var s2 :| IsRanking(b, s2) && c == s2[..Min(|s2|, keep)];
    var k := Min(|s1|, keep);
    assert |s2| == |b| by {
      assert |multiset(s2)| == |multiset(b)|;
    }
    assert c == s2;
    RerankFront(a, s1, k, s2);
    var s3 := s2 + s1[k..];
    assert |s3| == |s1|;
    assert s3[..Min(|s3|, keep)] == c;
    EvictionByRanking(a, s3, keep);
  }

  /** add_result's two compaction points in sequence: the periodic one (taken
      iff `due`) and, for an admitted result, the one before the append (taken
      iff the table was nearly full). The table is evicted iff either was taken. */
  lemma ComposeCompactions(before: seq<Entry>, mid: seq<Entry>, kept: seq<Entry>, keep: nat,
                           due: bool, admitted: bool, full: bool)
    requires due ==> IsEviction(before, mid, keep)
    requires !due ==> mid == before
    requires admitted && full ==> IsEviction(mid, kept, keep)
    requires !(admitted && full) ==> kept == mid
    ensures Compacted(before, kept, keep)
    ensures due || (admitted && full) ==> IsEviction(before, kept, keep)
    ensures !due && !(admitted && full) ==> kept == before
  {
    if due && admitted && full {
      EvictionTransitive(before, mid, kept, keep);
    }
  }
}
