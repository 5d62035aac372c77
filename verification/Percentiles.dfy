/** Nearest-rank percentiles over the window of recent observations, in exact arithmetic. */
module Percentiles {
  import opened Lists

  function AtMost(): (real, real) -> bool { (x: real, y: real) => x <= y }

  function Ascending(values: seq<real>): seq<real> { Sort(values, AtMost()) }

  /** `Math.ceil(k / 100)` */
  function CeilingOfHundredth(k: nat): (c: nat)
    ensures c * 100 >= k && (k > 0 ==> c > 0 && (c - 1) * 100 < k)
  {
    (k + 99) / 100
  }

  lemma ShareOfAll(p: nat, n: nat)
    requires p <= 100
    ensures p * n <= 100 * n && (p > 0 && n > 0 ==> p * n > 0)
  {
  }

  /** `Math.max(0, Math.ceil(p / 100 * n) - 1)` */
  function RankIndex(p: nat, n: nat): (i: nat)
    requires p <= 100 && n > 0
    ensures i < n && (i + 1) * 100 >= p * n && (p > 0 ==> i * 100 < p * n)
  {
    ShareOfAll(p, n);
    var ceiling := CeilingOfHundredth(p * n);
    if ceiling == 0 then 0 else ceiling - 1
  }

  lemma RankMonotone(p: nat, q: nat, n: nat)
    requires p <= q <= 100 && n > 0
    ensures RankIndex(p, n) <= RankIndex(q, n)
  {
    assert p * n <= q * n;
  }

  function Percentile(values: seq<real>, p: nat): real
    requires p <= 100
  {
    if values == [] then 0.0
    else
      SortLength(values);
      Ascending(values)[RankIndex(p, |values|)]
  }

  function UpTo(v: real): real -> bool { x => x <= v }

  function Below(v: real): real -> bool { x => x < v }

  /** How many values pass. */
  function Count(values: seq<real>, keep: real -> bool): nat { |Filter(values, keep)| }

  lemma SortLength(values: seq<real>)
    ensures |Ascending(values)| == |values|
  {
    SortMultiset(values, AtMost());
  }

  lemma AscendingFacts(values: seq<real>)
    ensures Sorted(Ascending(values), AtMost()) && forall x :: x in Ascending(values) ==> x in values
  {
    var dom := set x | x in values;
    SortSorted(values, AtMost(), dom);
    SortMultiset(values, AtMost());
  }

  lemma SameCount(values: seq<real>, keep: real -> bool)
    ensures Count(Ascending(values), keep) == Count(values, keep)
  {
    var dom := set x | x in values;
    FilterSort(values, AtMost(), dom, keep);
    SortMultiset(Filter(values, keep), AtMost());
  }

  lemma {:induction false} FilterAll(values: seq<real>, keep: real -> bool)
    requires forall i :: 0 <= i < |values| ==> keep(values[i])
    ensures Filter(values, keep) == values
  {
    if values != [] { FilterAll(values[1..], keep); }
  }

  lemma CountsAt(sorted: seq<real>, i: nat)
    requires Sorted(sorted, AtMost()) && i < |sorted|
    ensures Count(sorted, UpTo(sorted[i])) >= i + 1 && Count(sorted, Below(sorted[i])) <= i
  {
    var v := sorted[i];
    var (low, high) := (sorted[..i], sorted[i..]);
    assert sorted == low + high;
    assert sorted == sorted[..i + 1] + sorted[i + 1..];
    FilterConcat(low, high, Below(v));
    forall j | 0 <= j < |high| ensures !Below(v)(high[j]) {
      assert high[j] == sorted[i + j];
      if j > 0 { assert AtMost()(sorted[i], sorted[i + j]); }
    }
    FilterNone(high, Below(v));
    FilterMembers(low, Below(v));
    FilterConcat(sorted[..i + 1], sorted[i + 1..], UpTo(v));
    assert forall j :: 0 <= j < i ==> AtMost()(sorted[j], sorted[i]);
    FilterAll(sorted[..i + 1], UpTo(v));
  }

  /**
   * A percentile is an observed value with at least p percent of the window at or below it and, unless p is 0,
   * fewer than p percent strictly below.
   */
  lemma PercentileFacts(values: seq<real>, p: nat)
    requires values != [] && p <= 100
    ensures var v := Percentile(values, p);
      && v in values
      && Count(values, UpTo(v)) * 100 >= p * |values|
      && (p > 0 ==> Count(values, Below(v)) * 100 < p * |values|)
  {
    var v := Percentile(values, p);
    SortLength(values);
    AscendingFacts(values);
    CountsAt(Ascending(values), RankIndex(p, |values|));
    SameCount(values, UpTo(v));
    SameCount(values, Below(v));
    hide Filter, Sort, Sorted, Count;
  }

  lemma {:induction false} CountMonotone(values: seq<real>, p: real -> bool, q: real -> bool)
    requires forall x :: p(x) ==> q(x)
    ensures Count(values, p) <= Count(values, q)
  {
    if values != [] { CountMonotone(values[1..], p, q); }
  }

  /** These facts determine it: it is the least observed value with at least p percent at or below. */
  lemma PercentileIsLeast(values: seq<real>, p: nat, w: real)
    requires 0 < p <= 100 && w in values
    ensures Percentile(values, p) <= w <==> Count(values, UpTo(w)) * 100 >= p * |values|
  {
    PercentileFacts(values, p);
    var v := Percentile(values, p);
    hide Percentile;
    if v <= w {
      CountMonotone(values, UpTo(v), UpTo(w));
    } else {
      CountMonotone(values, UpTo(w), Below(v));
    }
  }

  /** A higher percentile is never a smaller value. */
  lemma PercentilesAscend(values: seq<real>, p: nat, q: nat)
    requires p <= q <= 100
    ensures Percentile(values, p) <= Percentile(values, q)
    ensures values == [] ==> Percentile(values, p) == 0.0
  {
    if values != [] {
      SortLength(values);
      AscendingFacts(values);
      var n := |values|;
      var (i, j) := (RankIndex(p, n), RankIndex(q, n));
      RankMonotone(p, q, n);
      assert Sorted(Ascending(values), AtMost());
      if i < j { assert AtMost()(Ascending(values)[i], Ascending(values)[j]); }
    }
  }

  // ---------- the window ----------

  datatype Observation = Observation(value: real, timestamp: int)

  /** The last n elements, all when there are fewer, none when n is negative. */
  function Last<T>(s: seq<T>, n: int): seq<T> {
    if n <= 0 then [] else if |s| <= n then s else s[|s| - n..]
  }

  /** The window never holds more than it may, ends with the newest, and leaves nothing out that has room. */
  lemma WindowMeaning<T>(s: seq<T>, n: int)
    ensures var window := Last(s, n);
      && |window| <= |s| && s[|s| - |window|..] == window
      && (n >= 0 ==> |window| <= n) && (n <= 0 ==> window == []) && (|window| < n ==> window == s)
  {
  }

  function ValuesOf(observations: seq<Observation>): (values: seq<real>)
    ensures |values| == |observations|
  {
    seq(|observations|, i requires 0 <= i < |observations| => observations[i].value)
  }

  function Total(observations: seq<Observation>): real {
    if observations == [] then 0.0
    else Total(observations[..|observations| - 1]) + observations[|observations| - 1].value
  }

  /** The sum of all observations: that of two parts is the sum of theirs, and that of one is its value. */
  lemma {:induction false} TotalMeaning(s: seq<Observation>, t: seq<Observation>, x: Observation)
    ensures Total(s + t) == Total(s) + Total(t) && Total([x]) == x.value
  {
    if t == [] {
      assert s + t == s && [x][..0] == [] && Total([]) == 0.0;
    } else {
      var n := |t| - 1;
      TotalMeaning(s, t[..n], x);
      assert (s + t)[..|s + t| - 1] == s + t[..n];
    }
  }

  datatype Summary = Summary(p50: real, p90: real, p95: real, p99: real)

  class HistogramCollector {
    var sum: real
    var count: nat
    var observations: seq<Observation>
    var timestamp: int
    const maxObservations: int
    /** Everything observed since the collector was made or last reset. */
    ghost var log: seq<Observation>

    ghost predicate Valid()
      reads this
    {
      && observations == Last(log, maxObservations)
      && sum == Total(log)
      && count == |log|
    }

    constructor (maxObservations: int, now: int)
      ensures Valid() && log == [] && this.maxObservations == maxObservations
    {
      this.maxObservations := maxObservations;
      sum, count, observations, timestamp, log := 0.0, 0, [], now, [];
    }

    method Observe(value: real, now: int)
      requires Valid()
      modifies this
      ensures Valid() && log == old(log) + [Observation(value, now)] && timestamp == now
    {
      sum := sum + value;
      count := count + 1;
      observations := observations + [Observation(value, now)];
      if |observations| > maxObservations {
        observations := observations[1..];
      }
      timestamp := now;
      log := log + [Observation(value, now)];
      assert log[..|log| - 1] == old(log);
    }

    method Reset(now: int)
      modifies this
      ensures Valid() && log == [] && timestamp == now
    {
      sum, count, observations, timestamp, log := 0.0, 0, [], now, [];
    }

    method CalculatePercentiles() returns (s: Summary)
      requires Valid()
      ensures var window := ValuesOf(Last(log, maxObservations));
        s == Summary(Percentile(window, 50), Percentile(window, 90), Percentile(window, 95), Percentile(window, 99))
      ensures s.p50 <= s.p90 <= s.p95 <= s.p99
    {
      ghost var window := ValuesOf(observations);
      PercentilesAscend(window, 50, 90);
      PercentilesAscend(window, 90, 95);
      PercentilesAscend(window, 95, 99);
      if |observations| == 0 {
        return Summary(0.0, 0.0, 0.0, 0.0);
      }
      SortLength(ValuesOf(observations));
      var sorted := Ascending(ValuesOf(observations));
      var n := |sorted|;
      s := Summary(sorted[RankIndex(50, n)], sorted[RankIndex(90, n)], sorted[RankIndex(95, n)],
          sorted[RankIndex(99, n)]);
    }
  }
}
