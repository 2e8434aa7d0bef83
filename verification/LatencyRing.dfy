/** The bounded ring of latency samples and its nearest-rank percentiles
    (crates/metrics/src/latency.rs). */
module LatencyRing {
  import opened Money

  const CAPACITY: nat := 4096

  datatype LatencyStats = LatencyStats(
    count: nat, minUs: int, meanUs: int, p50Us: int, p95Us: int, p99Us: int, maxUs: int)

  // ----- sorting a copy

  predicate IsSorted(s: seq<int>) {
    forall i, j :: 0 <= i < j < |s| ==> s[i] <= s[j]
  }

  function Insert(x: int, s: seq<int>): (r: seq<int>)
    ensures |r| == |s| + 1
  {
    if s == [] || x <= s[0] then [x] + s else [s[0]] + Insert(x, s[1..])
  }

  function Sort(s: seq<int>): (r: seq<int>)
    ensures |r| == |s|
  {
    if s == [] then [] else Insert(s[0], Sort(s[1..]))
  }

  function CountAtMost(s: seq<int>, v: int): nat {
    if s == [] then 0 else (if s[0] <= v then 1 else 0) + CountAtMost(s[1..], v)
  }

  function Total(s: seq<int>): int {
    if s == [] then 0 else s[0] + Total(s[1..])
  }

  lemma {:induction false} InsertAdds(x: int, s: seq<int>)
    ensures multiset(Insert(x, s)) == multiset(s) + multiset{x}
  {
    if s != [] && s[0] < x {
      InsertAdds(x, s[1..]);
      assert s == [s[0]] + s[1..];
    }
  }

  lemma {:induction false} InsertSorts(x: int, s: seq<int>)
    requires IsSorted(s)
    ensures IsSorted(Insert(x, s))
  {
    if s != [] && s[0] < x {
      InsertSorts(x, s[1..]);
      InsertAdds(x, s[1..]);
      var r := Insert(x, s[1..]);
      forall j | 0 <= j < |r|
        ensures s[0] <= r[j]
      {
        assert r[j] in multiset(r);
        assert r[j] == x || r[j] in s[1..];
      }
    }
  }

  /** The sorted copy is a permutation of the samples. */
  lemma {:induction false} SortSorts(s: seq<int>)
    ensures IsSorted(Sort(s)) && multiset(Sort(s)) == multiset(s)
  {
    if s != [] {
      SortSorts(s[1..]);
      InsertSorts(s[0], Sort(s[1..]));
      InsertAdds(s[0], Sort(s[1..]));
      assert s == [s[0]] + s[1..];
    }
  }

  lemma {:induction false} InsertKeepsTotals(x: int, s: seq<int>, v: int)
    ensures CountAtMost(Insert(x, s), v) == CountAtMost(s, v) + if x <= v then 1 else 0
    ensures Total(Insert(x, s)) == Total(s) + x
  {
    if s == [] || x <= s[0] {
      assert ([x] + s)[1..] == s;
    } else {
      InsertKeepsTotals(x, s[1..], v);
      assert ([s[0]] + Insert(x, s[1..]))[1..] == Insert(x, s[1..]);
    }
  }

  lemma {:induction false} SortKeepsTotals(s: seq<int>, v: int)
    ensures CountAtMost(Sort(s), v) == CountAtMost(s, v) && Total(Sort(s)) == Total(s)
  {
    if s != [] {
      SortKeepsTotals(s[1..], v);
      InsertKeepsTotals(s[0], Sort(s[1..]), v);
    }
  }

  // ----- percentiles

  /** The nearest rank: percent / 100 of n, rounded up. */
  function Rank(percent: nat, n: nat): nat {
    (percent * n + 99) / 100
  }

  function IndexFor(percent: nat, n: nat): nat
    requires n > 0
  {
    var r := Rank(percent, n);
    var i := if r == 0 then 0 else r - 1;
    if i < n - 1 then i else n - 1
  }

  function TruncDiv(a: int, n: nat): int
    requires n > 0
  {
    if a >= 0 then a / n else -((-a) / n)
  }

  function StatsOf(samples: seq<int>, total: nat): Option<LatencyStats> {
    if samples == [] then None
    else
      var s, n := Sort(samples), |samples|;
      Some(LatencyStats(
        total, s[0], TruncDiv(Total(s), n),
        s[IndexFor(50, n)], s[IndexFor(95, n)], s[IndexFor(99, n)], s[n - 1]))
  }

  /** `v` is the nearest-rank percentile: the least sample with at least `percent` hundredths of all
      samples at or below it. */
  ghost predicate IsPercentile(v: int, samples: seq<int>, percent: nat) {
    && v in samples
    && CountAtMost(samples, v) * 100 >= percent * |samples|
    && forall w :: w < v ==> CountAtMost(samples, w) * 100 < percent * |samples|
  }

  lemma {:induction false} CountInSorted(s: seq<int>, i: nat, v: int)
    requires IsSorted(s) && i < |s|
    ensures s[i] <= v ==> CountAtMost(s, v) >= i + 1
    ensures v < s[i] ==> CountAtMost(s, v) <= i
  {
    if i == 0 {
      if v < s[0] {
        NoneAtMost(s, v);
      }
    } else {
      CountInSorted(s[1..], i - 1, v);
    }
  }

  lemma {:induction false} NoneAtMost(s: seq<int>, v: int)
    requires forall i :: 0 <= i < |s| ==> v < s[i]
    ensures CountAtMost(s, v) == 0
  {
    if s != [] {
      NoneAtMost(s[1..], v);
    }
  }

  lemma IndexIsRank(percent: nat, n: nat)
    requires n > 0 && 0 < percent <= 100
    ensures 1 <= Rank(percent, n) <= n && IndexFor(percent, n) == Rank(percent, n) - 1
  {
    assert percent * n >= 1 && percent * n <= 100 * n;
  }

  lemma PercentileIsNearestRank(samples: seq<int>, percent: nat)
    requires samples != [] && 0 < percent <= 100
    ensures IsPercentile(Sort(samples)[IndexFor(percent, |samples|)], samples, percent)
  {
    var s, n := Sort(samples), |samples|;
    var i := IndexFor(percent, n);
    SortSorts(samples);
    IndexIsRank(percent, n);
    assert s[i] in multiset(s);
    CountInSorted(s, i, s[i]);
    SortKeepsTotals(samples, s[i]);
    forall w | w < s[i]
      ensures CountAtMost(samples, w) * 100 < percent * n
    {
      CountInSorted(s, i, w);
      SortKeepsTotals(samples, w);
    }
  }

  lemma {:induction false} TotalBetween(s: seq<int>, lo: int, hi: int)
    requires forall i :: 0 <= i < |s| ==> lo <= s[i] <= hi
    ensures lo * |s| <= Total(s) <= hi * |s|
  {
    if s != [] {
      TotalBetween(s[1..], lo, hi);
      assert lo * |s| == lo * (|s| - 1) + lo && hi * |s| == hi * (|s| - 1) + hi;
    }
  }

  lemma TruncBetween(a: int, n: nat, lo: int, hi: int)
    requires n > 0 && lo * n <= a <= hi * n
    ensures lo <= TruncDiv(a, n) <= hi
  {
    var q := TruncDiv(a, n);
    var r := a - q * n;
    assert 0 - n < r < n by {
      if a >= 0 {
        assert a == (a / n) * n + a % n;
      } else {
        assert -a == ((-a) / n) * n + (-a) % n;
        assert q * n == -(((-a) / n) * n);
      }
    }
    if q < lo {
      Widen(q, lo, n);
    }
    if hi < q {
      Widen(hi, q, n);
    }
  }

  lemma Widen(a: int, b: int, n: nat)
    requires a < b
    ensures a * n + n <= b * n
  {
    assert b * n == a * n + (b - a) * n;
    assert (b - a) * n == n + (b - a - 1) * n;
    assert (b - a - 1) * n >= 0;
  }

  /** `mean` times the number of samples is their sum, up to a remainder of the sum's own sign. */
  predicate IsTruncatedAverage(mean: int, samples: seq<int>) {
    var sum, n := Total(samples), |samples|;
    if sum >= 0 then 0 <= sum - mean * n < n else -n < sum - mean * n <= 0
  }

  lemma TruncIsAverage(samples: seq<int>)
    requires samples != []
    ensures IsTruncatedAverage(TruncDiv(Total(samples), |samples|), samples)
  {
    var sum, n := Total(samples), |samples|;
    if sum >= 0 {
      assert sum == (sum / n) * n + sum % n;
    } else {
      assert -sum == ((-sum) / n) * n + (-sum) % n;
    }
  }

  /** What the reported statistics mean for any samples: exact extremes, three nearest-rank
      percentiles in order, and a mean that is their truncated average. */
  lemma StatsMeanWhatTheySay(samples: seq<int>, total: nat)
    requires samples != []
    ensures var st, n := StatsOf(samples, total).value, |samples|;
      && st.minUs in samples && st.maxUs in samples
      && (forall i :: 0 <= i < n ==> st.minUs <= samples[i] <= st.maxUs)
      && IsPercentile(st.p50Us, samples, 50)
      && IsPercentile(st.p95Us, samples, 95)
      && IsPercentile(st.p99Us, samples, 99)
      && st.minUs <= st.p50Us <= st.p95Us <= st.p99Us <= st.maxUs
      && st.minUs <= st.meanUs <= st.maxUs
      && IsTruncatedAverage(st.meanUs, samples)
      && st.count == total
  {
    hide IsPercentile, Sort, TruncDiv, Total, IsSorted;
    var s, n := Sort(samples), |samples|;
    PercentileIsNearestRank(samples, 50);
    PercentileIsNearestRank(samples, 95);
    PercentileIsNearestRank(samples, 99);
    SortedEnds(samples, IndexFor(50, n), IndexFor(95, n), IndexFor(99, n));
    TotalBetween(s, s[0], s[n - 1]);
    TruncBetween(Total(s), n, s[0], s[n - 1]);
    SortKeepsTotals(samples, 0);
    TruncIsAverage(samples);
  }

  lemma SortedEnds(samples: seq<int>, i: nat, j: nat, k: nat)
    requires samples != [] && i <= j <= k < |samples|
    ensures var s, n := Sort(samples), |samples|;
      && s[0] in samples && s[n - 1] in samples
      && s[0] <= s[i] <= s[j] <= s[k] <= s[n - 1]
      && (forall x :: 0 <= x < n ==> s[0] <= samples[x] <= s[n - 1] && s[0] <= s[x] <= s[n - 1])
  {
    hide Sort;
    var s, n := Sort(samples), |samples|;
    SortSorts(samples);
    assert s[0] in multiset(s) && s[n - 1] in multiset(s);
    assert forall x :: 0 <= x < n ==> s[0] <= s[x] <= s[n - 1];
    forall x | 0 <= x < n
      ensures s[0] <= samples[x] <= s[n - 1]
    {
      assert samples[x] in multiset(s);
      var y :| 0 <= y < n && s[y] == samples[x];
    }
  }

  // ----- the ring as it is updated in place

  /** The last CAPACITY samples of a history. */
  function Recent(history: seq<int>): seq<int> {
    if |history| <= CAPACITY then history else history[|history| - CAPACITY..]
  }

  lemma RecentSlides(history: seq<int>, v: int)
    requires |history| >= CAPACITY
    ensures Recent(history + [v]) == Recent(history)[1..] + [v]
  {
  }

  /** Overwriting the oldest slot and stepping on drops the oldest sample and appends the new one. */
  lemma Rotates(b: seq<int>, next: nat, v: int)
    requires next < |b| == CAPACITY
    ensures var n := (next + 1) % CAPACITY;
      b[next := v][n..] + b[next := v][..n] == (b[next..] + b[..next])[1..] + [v]
  {
    var c := b[next := v];
    if next + 1 == CAPACITY {
      assert c[0..] + c[..0] == b[..next] + [v];
    } else {
      assert c[next + 1..] == b[next + 1..] && c[..next + 1] == b[..next] + [v];
    }
  }

  class Ring {
    var buf: seq<int>
    var next: nat
    var total: nat
    ghost var history: seq<int>

    /** Read from the next slot to be overwritten, the buffer is the recent history. */
    ghost predicate Valid()
      reads this
    {
      && total == |history|
      && |buf| <= CAPACITY && next < CAPACITY && (|buf| < CAPACITY ==> next == 0)
      && |buf| == |Recent(history)|
      && next <= |buf|
      && buf[next..] + buf[..next] == Recent(history)
    }

    constructor ()
      ensures Valid() && history == []
    {
      buf, next, total, history := [], 0, 0, [];
    }

    method Push(v: int)
      requires Valid()
      modifies this
      ensures Valid() && history == old(history) + [v]
    {
      total := total + 1;
      history := history + [v];
      if |buf| < CAPACITY {
        buf := buf + [v];
      } else {
        Rotates(buf, next, v);
        RecentSlides(old(history), v);
        buf := buf[next := v];
        next := (next + 1) % CAPACITY;
      }
    }

    method Stats() returns (r: Option<LatencyStats>)
      requires Valid()
      ensures r == StatsOf(buf, |history|)
    {
      if buf == [] {
        return None;
      }
      var s := Sort(buf);
      var n := |s|;
      var sum := 0;
      for i := 0 to n
        invariant sum + Total(s[i..]) == Total(s)
      {
        sum := sum + s[i];
        assert s[i..][1..] == s[i + 1..];
      }
      r := Some(LatencyStats(
        total, s[0], TruncDiv(sum, n), s[IndexFor(50, n)], s[IndexFor(95, n)], s[IndexFor(99, n)], s[n - 1]));
    }
  }

  lemma {:induction false} CountAppend(a: seq<int>, b: seq<int>, v: int)
    ensures CountAtMost(a + b, v) == CountAtMost(a, v) + CountAtMost(b, v)
  {
    if a == [] {
      assert a + b == b;
    } else {
      assert (a + b)[1..] == a[1..] + b;
      CountAppend(a[1..], b, v);
    }
  }

  /** A ring holds, as a multiset, exactly the last min(n, CAPACITY) samples pushed, so a percentile
      of its buffer is that percentile of the recent history. */
  lemma RingHoldsRecentHistory(buf: seq<int>, next: nat, history: seq<int>, v: int, percent: nat)
    requires next <= |buf| && buf[next..] + buf[..next] == Recent(history)
    ensures multiset(buf) == multiset(Recent(history))
    ensures |buf| == if |history| < CAPACITY then |history| else CAPACITY
    ensures IsPercentile(v, buf, percent) <==> IsPercentile(v, Recent(history), percent)
  {
    assert buf == buf[..next] + buf[next..];
    forall w
      ensures CountAtMost(buf, w) == CountAtMost(Recent(history), w)
    {
      CountAppend(buf[..next], buf[next..], w);
      CountAppend(buf[next..], buf[..next], w);
    }
    assert v in buf <==> v in multiset(buf);
    assert v in Recent(history) <==> v in multiset(Recent(history));
  }
}
