/** Chain histograms: the Python dictionaries that map a chain length to the
    number of times a chain of that length occurs, and the sums taken over them. */
module Histograms {

  /** A chain histogram (a Python dict from chain length to occurrence count). */
  type Histogram = map<int, int>

  /** `d.get(k, 0)` */
  function Get(d: Histogram, k: int): int {
    if k in d then d[k] else 0
  }

  /** Every key is a positive chain length and every count is positive. */
  predicate ValidHistogram(d: Histogram) {
    forall k :: k in d ==> k >= 1 && d[k] >= 1
  }

  /** Sum of a sequence of integers. */
  function Sum(s: seq<int>): int {
    if s == [] then 0 else s[0] + Sum(s[1..])
  }

  lemma {:induction false} SumAppend(a: seq<int>, b: seq<int>)
    ensures Sum(a + b) == Sum(a) + Sum(b)
  {
    if a == [] {
      assert a + b == b;
    } else {
      assert (a + b)[1..] == a[1..] + b;
      SumAppend(a[1..], b);
    }
  }

  lemma SumSnoc(s: seq<int>, x: int)
    ensures Sum(s + [x]) == Sum(s) + x
  {
    SumAppend(s, [x]);
    assert Sum([x]) == x + Sum([]);
  }

  /** Some element of a non-empty set. */
  lemma AnElement<T>(s: set<T>) returns (x: T)
    requires s != {}
    ensures x in s
  {
    if forall y :: y !in s {
      assert false;
    }
    x :| x in s;
  }

  /** The largest element of a non-empty finite set of integers. */
  lemma {:induction false} MaxOf(s: set<int>) returns (m: int)
    requires s != {}
    ensures m in s && forall k :: k in s ==> k <= m
    decreases |s|
  {
    var x := AnElement(s);
    if s - {x} == {} {
      m := x;
      forall k | k in s ensures k <= m {
        assert k !in s - {x};
      }
    } else {
      var rest := MaxOf(s - {x});
      m := if x > rest then x else rest;
      forall k | k in s ensures k <= m {
        if k != x {
          assert k in s - {x};
        }
      }
    }
  }

  lemma MaxExists(s: set<int>)
    requires s != {}
    ensures exists m :: m in s && forall k :: k in s ==> k <= m
  {
    var m := MaxOf(s);
  }

  /** The largest chain length of a non-empty histogram (`np.max` over its keys). */
  function MaxKey(d: Histogram): (m: int)
    requires d != map[]
    ensures m in d && forall k :: k in d ==> k <= m
  {
    assert d.Keys != {} by {
      if d.Keys == {} {
        assert false;
      }
    }
    MaxExists(d.Keys);
    var m :| m in d.Keys && forall k :: k in d.Keys ==> k <= m;
    m
  }

  /** The factor a key contributes to a sum: its length, or 1 when only counts are summed. */
  function Weight(k: int, weighted: bool): int {
    if weighted then k else 1
  }

  lemma RemoveCard(d: Histogram, k: int)
    requires k in d
    ensures |d - {k}| == |d| - 1
  {
    assert (d - {k}).Keys == d.Keys - {k};
  }

  /** Sum over the entries of `d` of Weight(key) * count, taking keys from the largest down. */
  function MapSum(d: Histogram, weighted: bool): int
    decreases |d|
  {
    if d == map[] then 0
    else
      var m := MaxKey(d);
      RemoveCard(d, m);
      Weight(m, weighted) * d[m] + MapSum(d - {m}, weighted)
  }

  /** `np.sum(list(d.values()))`: the number of chains recorded in `d`. With every
      count positive there is at least one chain per key, so of the valid
      dictionaries only the empty one totals 0. */
  function TotalCount(d: Histogram): (t: int)
    ensures d == map[] ==> t == 0
    ensures ValidHistogram(d) ==> t >= |d|
  {
    CountsAtLeastKeys(d);
    MapSum(d, false)
  }

  lemma {:induction false} CountsAtLeastKeys(d: Histogram)
    ensures ValidHistogram(d) ==> MapSum(d, false) >= |d|
    decreases |d|
  {
    if d != map[] && ValidHistogram(d) {
      var m := MaxKey(d);
      RemoveCard(d, m);
      CountsAtLeastKeys(d - {m});
    }
  }

  /** Sum of length * count over `d`: the number of changed blocks `d` accounts for. */
  function TotalChanges(d: Histogram): int {
    MapSum(d, true)
  }

  /** Removing any one key takes exactly its own term out of the sum. */
  lemma {:induction false} MapSumRemove(d: Histogram, k: int, weighted: bool)
    requires k in d
    ensures MapSum(d, weighted) == Weight(k, weighted) * d[k] + MapSum(d - {k}, weighted)
    decreases |d|
  {
    var m := MaxKey(d);
    if m != k {
      RemoveCard(d, m);
      MapSumRemove(d - {m}, k, weighted);
      var e := d - {k};
      assert m in e;
      assert MaxKey(e) == m;
      assert (d - {m}) - {k} == e - {m};
    }
  }

  /** Setting the count of key `k` to `v` replaces its term in the sum. */
  lemma MapSumUpdate(d: Histogram, k: int, v: int, weighted: bool)
    ensures MapSum(d[k := v], weighted) == MapSum(d - {k}, weighted) + Weight(k, weighted) * v
  {
    MapSumRemove(d[k := v], k, weighted);
    assert d[k := v] - {k} == d - {k};
  }

  /** Adding `a` to the count at key `k` (creating it if absent) adds `a` terms of key `k`. */
  lemma MapSumAdd(d: Histogram, k: int, a: int, weighted: bool)
    ensures MapSum(d[k := Get(d, k) + a], weighted) == MapSum(d, weighted) + Weight(k, weighted) * a
  {
    var w, prev := Weight(k, weighted), Get(d, k);
    MapSumUpdate(d, k, prev + a, weighted);
    Distribute(w, prev, a);
    if k in d {
      MapSumRemove(d, k, weighted);
    } else {
      assert d - {k} == d;
      assert w * prev == 0;
    }
  }

  lemma Distribute(w: int, x: int, y: int)
    ensures w * (x + y) == w * x + w * y
  {
  }

  /** With no negative count, any single count is at most the total count. */
  lemma CountAtMostTotal(d: Histogram, k: int)
    requires forall j :: j in d ==> d[j] >= 0
    ensures 0 <= Get(d, k) <= TotalCount(d)
  {
    NonNegativeTotal(d);
    if k in d {
      MapSumRemove(d, k, false);
      NonNegativeTotal(d - {k});
    }
  }

  lemma {:induction false} NonNegativeTotal(d: Histogram)
    requires forall j :: j in d ==> d[j] >= 0
    ensures TotalCount(d) >= 0
    decreases |d|
  {
    if d != map[] {
      var m := MaxKey(d);
      RemoveCard(d, m);
      NonNegativeTotal(d - {m});
    }
  }

  /** Record one more chain of length `c` (the dict update at uniform_writes.py lines 18-21). */
  function Record(d: Histogram, c: int): (r: Histogram)
    ensures r.Keys == d.Keys + {c}
    ensures r[c] == Get(d, c) + 1
    ensures forall k :: k in d && k != c ==> r[k] == d[k]
  {
    d[c := Get(d, c) + 1]
  }

  /** The histogram of a list of chain lengths, recorded left to right. */
  function HistogramOf(chains: seq<int>): Histogram {
    if chains == [] then map[]
    else Record(HistogramOf(chains[..|chains| - 1]), chains[|chains| - 1])
  }

  /** The histogram of a chain list is its multiset of lengths: each length maps to
      the number of times it occurs, and only lengths that occur are keys. */
  lemma {:induction false} HistogramOfCounts(chains: seq<int>)
    ensures forall k :: (k in HistogramOf(chains) <==> k in chains)
    ensures forall k :: Get(HistogramOf(chains), k) == multiset(chains)[k]
  {
    if chains != [] {
      var init, c := chains[..|chains| - 1], chains[|chains| - 1];
      HistogramOfCounts(init);
      assert chains == init + [c];
      assert multiset(chains) == multiset(init) + multiset{c};
      forall k ensures k in HistogramOf(chains) <==> k in chains {
        assert k in chains <==> k in init || k == c;
      }
    }
  }

  /** Histograms of chain lists hold positive counts; with positive lengths they are valid. */
  lemma HistogramOfValid(chains: seq<int>)
    requires forall i :: 0 <= i < |chains| ==> chains[i] >= 1
    ensures ValidHistogram(HistogramOf(chains))
  {
    HistogramOfCounts(chains);
    forall k | k in HistogramOf(chains) ensures k >= 1 && HistogramOf(chains)[k] >= 1 {
      assert k in chains;
      assert Get(HistogramOf(chains), k) == multiset(chains)[k];
    }
  }

  /** Summing length * count gives the total length of the chains, and summing the
      counts gives the number of chains. */
  lemma {:induction false} HistogramOfSums(chains: seq<int>)
    ensures TotalChanges(HistogramOf(chains)) == Sum(chains)
    ensures TotalCount(HistogramOf(chains)) == |chains|
  {
    if chains != [] {
      var init, c := chains[..|chains| - 1], chains[|chains| - 1];
      HistogramOfSums(init);
      MapSumAdd(HistogramOf(init), c, 1, true);
      MapSumAdd(HistogramOf(init), c, 1, false);
      assert chains == init + [c];
      SumSnoc(init, c);
    }
  }

  /** Sum of Weight(k) * count over the keys 1..n. */
  function SumUpTo(d: Histogram, n: int, weighted: bool): int
    decreases n
  {
    if n <= 0 then 0 else SumUpTo(d, n - 1, weighted) + Weight(n, weighted) * Get(d, n)
  }

  lemma {:induction false} SumUpToAgree(d: Histogram, e: Histogram, n: int, weighted: bool)
    requires forall k :: 1 <= k <= n ==> Get(d, k) == Get(e, k)
    ensures SumUpTo(d, n, weighted) == SumUpTo(e, n, weighted)
    decreases n
  {
    if n > 0 {
      SumUpToAgree(d, e, n - 1, weighted);
    }
  }

  /** When every key lies in 1..n, the sum over the map equals the sum over 1..n. */
  lemma {:induction false} MapSumAsRange(d: Histogram, n: int, weighted: bool)
    requires forall k :: k in d ==> 1 <= k <= n
    ensures MapSum(d, weighted) == SumUpTo(d, n, weighted)
    decreases if n < 0 then 0 else n
  {
    if n <= 0 {
      if d != map[] {
        var k := MaxKey(d);
        assert false;
      }
    } else {
      var e := d - {n};
      assert forall k :: k in e ==> 1 <= k <= n - 1;
      assert forall k :: 1 <= k <= n - 1 ==> Get(d, k) == Get(e, k);
      SumUpToAgree(d, e, n - 1, weighted);
      MapSumAsRange(e, n - 1, weighted);
      assert SumUpTo(d, n, weighted) == SumUpTo(e, n - 1, weighted) + Weight(n, weighted) * Get(d, n);
      if n in d {
        MapSumRemove(d, n, weighted);
      } else {
        assert e == d;
      }
    }
  }

  // ---------------------------------------------------------------------------
  // Ratios of counts

  /** `c / total` in true division. */
  function Ratio(c: int, total: int): real
    requires total != 0
  {
    (c as real) / (total as real)
  }

  lemma RatioAdd(a: int, c: int, total: int)
    requires total != 0
    ensures Ratio(a, total) + Ratio(c, total) == Ratio(a + c, total)
  {
  }

  lemma RatioWhole(total: int)
    requires total != 0
    ensures Ratio(total, total) == 1.0
  {
    var t := total as real;
    assert t != 0.0;
    assert t / t == 1.0;
  }

  lemma RatioZero(total: int)
    requires total != 0
    ensures Ratio(0, total) == 0.0
  {
    assert (total as real) != 0.0;
  }

  /** A count between 0 and the total is a ratio between 0 and 1. */
  lemma RatioUnit(c: int, total: int)
    requires 0 <= c <= total && total != 0
    ensures 0.0 <= Ratio(c, total) <= 1.0
  {
    var t := total as real;
    assert t > 0.0;
    assert (c as real) <= t;
    assert (c as real) / t <= t / t;
  }

  /** A ratio over a positive total is 1 exactly when the count is the total. */
  lemma RatioOne(c: int, total: int)
    requires total > 0
    ensures Ratio(c, total) == 1.0 <==> c == total
  {
    var t := total as real;
    assert Ratio(c, total) * t == c as real;
    if c == total {
      RatioWhole(total);
    }
  }

  /** A ratio over a non-zero total is 0 exactly when the count is 0. */
  lemma RatioZeroIff(c: int, total: int)
    requires total != 0
    ensures Ratio(c, total) == 0.0 <==> c == 0
  {
    var t := total as real;
    assert Ratio(c, total) * t == c as real;
    if c == 0 {
      RatioZero(total);
    }
  }

  /** The share of length k among a valid dictionary's chains lies in [0, 1]; it is 0
      exactly when k is absent and 1 exactly when k is the only length. */
  lemma ShareBounds(d: Histogram, k: int)
    requires ValidHistogram(d) && d != map[]
    ensures 0.0 <= Ratio(Get(d, k), TotalCount(d)) <= 1.0
    ensures Ratio(Get(d, k), TotalCount(d)) == 0.0 <==> k !in d
    ensures Ratio(Get(d, k), TotalCount(d)) == 1.0 <==> d.Keys == {k}
  {
    var c, total := Get(d, k), TotalCount(d);
    CountAtMostTotal(d, k);
    RatioUnit(c, total);
    RatioZeroIff(c, total);
    RatioOne(c, total);
    if k in d {
      MapSumRemove(d, k, false);
      var rest := d - {k};
      assert rest.Keys == d.Keys - {k};
      assert TotalCount(rest) >= |rest|;
      if d.Keys == {k} {
        assert rest == map[];
      } else {
        assert rest != map[];
      }
    }
  }
}
