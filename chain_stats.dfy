/** The chain-statistics engine of uniform_writes.py: the run-length histogram of
    a block-change vector, its dense table form, the exact chain-length
    distribution for uniform writes, and the uniform-writes simulator. */
module ChainStats {
  import opened Histograms
  import opened Combinatorics

  // ---------------------------------------------------------------------------
  // Runs of changed blocks

  /** Number of entries equal to 1 (changed blocks). */
  function Ones(s: seq<int>): nat {
    if s == [] then 0 else Ones(s[..|s| - 1]) + (if s[|s| - 1] == 1 then 1 else 0)
  }

  /** Number of maximal runs of 1s: positions holding a 1 not preceded by a 1. */
  function RunStarts(s: seq<int>): nat {
    if s == [] then 0
    else
      var i := |s| - 1;
      RunStarts(s[..i]) + (if s[i] == 1 && (i == 0 || s[i - 1] != 1) then 1 else 0)
  }

  /** Length of the run of 1s that ends the sequence (0 when it ends in a non-1). */
  function TrailingOnes(s: seq<int>): nat {
    if s == [] || s[|s| - 1] != 1 then 0 else TrailingOnes(s[..|s| - 1]) + 1
  }

  /** Lengths of the runs of 1s already closed by a later non-1 entry, in order. */
  function ClosedRuns(s: seq<int>): seq<int> {
    if s == [] then []
    else
      var init := s[..|s| - 1];
      if s[|s| - 1] != 1 && TrailingOnes(init) != 0 then ClosedRuns(init) + [TrailingOnes(init)]
      else ClosedRuns(init)
  }

  /** The lengths of all maximal runs of 1s, including a run still open at the end. */
  function Chains(s: seq<int>): seq<int> {
    ClosedRuns(s) + (if TrailingOnes(s) != 0 then [TrailingOnes(s)] else [])
  }

  lemma {:induction false} RunFacts(s: seq<int>)
    ensures Sum(ClosedRuns(s)) + TrailingOnes(s) == Ones(s)
    ensures |ClosedRuns(s)| + (if TrailingOnes(s) != 0 then 1 else 0) == RunStarts(s)
    ensures TrailingOnes(s) <= |s|
    ensures forall j :: 0 <= j < |ClosedRuns(s)| ==> 1 <= ClosedRuns(s)[j] <= |s|
  {
    if s != [] {
      var init := s[..|s| - 1];
      RunFacts(init);
      if |init| > 0 {
        assert init[|init| - 1] == s[|s| - 2];
        assert TrailingOnes(init) != 0 <==> s[|s| - 2] == 1;
      }
      if s[|s| - 1] != 1 && TrailingOnes(init) != 0 {
        SumSnoc(ClosedRuns(init), TrailingOnes(init));
      }
    }
  }

  /** The chains of a change vector account for every changed block, one chain per
      maximal run, and each chain length lies between 1 and the vector length. */
  lemma ChainsFacts(s: seq<int>)
    ensures Sum(Chains(s)) == Ones(s)
    ensures |Chains(s)| == RunStarts(s)
    ensures forall j :: 0 <= j < |Chains(s)| ==> 1 <= Chains(s)[j] <= |s|
  {
    RunFacts(s);
    if TrailingOnes(s) != 0 {
      SumSnoc(ClosedRuns(s), TrailingOnes(s));
    } else {
      assert Chains(s) == ClosedRuns(s);
    }
  }

  /** Reading one more entry either extends the trailing run or closes it. */
  lemma RunStep(s: seq<int>, x: int)
    ensures TrailingOnes(s + [x]) == if x == 1 then TrailingOnes(s) + 1 else 0
    ensures ClosedRuns(s + [x]) ==
      if x != 1 && TrailingOnes(s) != 0 then ClosedRuns(s) + [TrailingOnes(s)] else ClosedRuns(s)
  {
    assert (s + [x])[..|s|] == s;
  }

  lemma HistogramOfSnoc(chains: seq<int>, c: int)
    ensures HistogramOf(chains + [c]) == Record(HistogramOf(chains), c)
  {
    assert (chains + [c])[..|chains|] == chains;
  }

  /** `construct_consecutive_changes_dict(data)`: one pass over the change vector,
      counting each maximal run of 1s by its length; the run still open when the
      vector ends is recorded too. */
  method ConstructConsecutiveChangesDict(data: seq<int>) returns (d: Histogram)
    ensures d == HistogramOf(Chains(data))
    ensures ValidHistogram(d)
    ensures forall k :: k in d ==> k <= |data|
    ensures TotalChanges(d) == Ones(data)
    ensures TotalCount(d) == RunStarts(data)
  {
    d := map[];
    var consecutive := 0;
    for i := 0 to |data|
      invariant d == HistogramOf(ClosedRuns(data[..i]))
      invariant consecutive == TrailingOnes(data[..i])
    {
      assert data[..i + 1] == data[..i] + [data[i]];
      RunStep(data[..i], data[i]);
      if data[i] == 1 {
        consecutive := consecutive + 1;
      } else if consecutive != 0 {
        HistogramOfSnoc(ClosedRuns(data[..i]), consecutive);
        if consecutive !in d {
          d := d[consecutive := 1];
        } else {
          d := d[consecutive := d[consecutive] + 1];
        }
        consecutive := 0;
      }
    }
    assert data[..|data|] == data;
    if consecutive != 0 {
      HistogramOfSnoc(ClosedRuns(data), consecutive);
      if consecutive !in d {
        d := d[consecutive := 1];
      } else {
        d := d[consecutive := d[consecutive] + 1];
      }
    } else {
      assert Chains(data) == ClosedRuns(data);
    }
    ChainsHistogram(data);
  }

  /** The dictionary of a change vector's chains is valid, its lengths fit in the
      vector, and it accounts for every changed block and every run. */
  lemma ChainsHistogram(data: seq<int>)
    ensures ValidHistogram(HistogramOf(Chains(data)))
    ensures forall k :: k in HistogramOf(Chains(data)) ==> k <= |data|
    ensures TotalChanges(HistogramOf(Chains(data))) == Ones(data)
    ensures TotalCount(HistogramOf(Chains(data))) == RunStarts(data)
  {
    ChainsFacts(data);
    HistogramOfValid(Chains(data));
    HistogramOfCounts(Chains(data));
    HistogramOfSums(Chains(data));
  }

  // ---------------------------------------------------------------------------
  // The dense table

  datatype Result<T, E> = Ok(value: T) | Err(error: E)

  /** `np.max` of no keys: the histogram was empty. */
  datatype ChainError = EmptyHistogram

  /** Sum of column `col` over the first n rows of a table. */
  ghost function ColumnSum(m: array2<real>, col: nat, n: nat): real
    requires n <= m.Length0 && col < m.Length1
    reads m
  {
    if n == 0 then 0.0 else ColumnSum(m, col, n - 1) + m[n - 1, col]
  }

  lemma {:induction false} ColumnSums(m: array2<real>, d: Histogram, n: nat, total: int)
    requires n <= m.Length0 && m.Length1 == 3 && total != 0
    requires forall i :: 0 <= i < n ==> m[i, 1] == Get(d, i + 1) as real
    requires forall i :: 0 <= i < n ==> m[i, 2] == Ratio(Get(d, i + 1), total)
    ensures ColumnSum(m, 1, n) == SumUpTo(d, n, false) as real
    ensures ColumnSum(m, 2, n) == Ratio(SumUpTo(d, n, false), total)
  {
    if n == 0 {
      RatioZero(total);
    } else {
      ColumnSums(m, d, n - 1, total);
      RatioAdd(SumUpTo(d, n - 1, false), Get(d, n), total);
    }
  }

  /** The fraction of all chains in `d` that have length k: a share in [0, 1], which
      is 0 exactly for lengths `d` does not hold and 1 exactly when k is its only length. */
  function ChainShare(d: Histogram, k: int): (s: real)
    requires ValidHistogram(d) && d != map[]
    ensures 0.0 <= s <= 1.0
    ensures s == 0.0 <==> k !in d
    ensures s == 1.0 <==> d.Keys == {k}
  {
    ShareBounds(d, k);
    Ratio(Get(d, k), TotalCount(d))
  }

  /** The count of length k once every key outside `pending` has been written. */
  function Written(d: Histogram, pending: set<int>, k: int): int {
    if k in d && k !in pending then d[k] else 0
  }

  /** The loop over `dict.items()` that writes each count and its ratio to the
      total into the row of its chain length; rows of absent lengths keep 0. */
  method FillCounts(matrix: array2<real>, d: Histogram, total: int)
    requires matrix.Length1 == 3 && total != 0
    requires forall k :: k in d ==> 1 <= k <= matrix.Length0
    requires forall i :: 0 <= i < matrix.Length0 ==> matrix[i, 1] == 0.0 && matrix[i, 2] == 0.0
    modifies matrix
    ensures forall i :: 0 <= i < matrix.Length0 ==> matrix[i, 0] == old(matrix[i, 0])
    ensures forall i :: 0 <= i < matrix.Length0 ==>
      matrix[i, 1] == Get(d, i + 1) as real && matrix[i, 2] == Ratio(Get(d, i + 1), total)
  {
    RatioZero(total);
    var keys := d.Keys;
    while keys != {}
      invariant keys <= d.Keys
      invariant forall i :: 0 <= i < matrix.Length0 ==> matrix[i, 0] == old(matrix[i, 0])
      invariant forall i :: 0 <= i < matrix.Length0 ==> matrix[i, 1] == Written(d, keys, i + 1) as real
      invariant forall i :: 0 <= i < matrix.Length0 ==> matrix[i, 2] == Ratio(Written(d, keys, i + 1), total)
      decreases |keys|
    {
      ghost var some := AnElement(keys);
      var key :| key in keys;
      matrix[key - 1, 1] := d[key] as real;
      matrix[key - 1, 2] := Ratio(d[key], total);
      keys := keys - {key};
    }
  }

  /** `consecutive_change_dict_to_matrix(dict)`: a max_chain x 3 table whose row i
      holds the length i + 1, the number of chains of that length, and that number
      divided by the total number of chains. An empty histogram has no maximum. */
  method ConsecutiveChangeDictToMatrix(d: Histogram) returns (r: Result<array2<real>, ChainError>)
    requires ValidHistogram(d)
    ensures r.Err? <==> d == map[]
    ensures r.Ok? ==> fresh(r.value)
    ensures r.Ok? ==> r.value.Length0 == MaxKey(d) && r.value.Length1 == 3
    ensures r.Ok? ==> forall i :: 0 <= i < r.value.Length0 ==>
      r.value[i, 0] == (i + 1) as real &&
      r.value[i, 1] == Get(d, i + 1) as real &&
      r.value[i, 2] == ChainShare(d, i + 1)
    ensures r.Ok? ==> ColumnSum(r.value, 1, r.value.Length0) == TotalCount(d) as real
    ensures r.Ok? ==> ColumnSum(r.value, 2, r.value.Length0) == 1.0
  {
    if d == map[] {
      return Err(EmptyHistogram);
    }
    var total := TotalCount(d);
    var maxChain := MaxKey(d);
    CountAtMostTotal(d, maxChain);
    var matrix := new real[maxChain, 3]((i, j) => if j == 0 then (i + 1) as real else 0.0);
    FillCounts(matrix, d, total);
    MapSumAsRange(d, maxChain, false);
    ColumnSums(matrix, d, maxChain, total);
    RatioWhole(total);
    return Ok(matrix);
  }

  // ---------------------------------------------------------------------------
  // Exact chain-length distribution

  /** `partition_probability` of one decomposition p of k writes over n blocks: the
      binomial quotient C(n-k+1, len p) / C(n, k), positive exactly when p has at most
      n-k+1 parts (room for a free block between consecutive chains). */
  function PartitionProbability(n: int, k: int, p: seq<int>): (pp: real)
    requires 1 <= k <= n
    ensures Binomial(n, k) >= 1
    ensures pp == (Binomial(n - k + 1, |p|) as real) / (Binomial(n, k) as real)
    ensures pp >= 0.0
    ensures pp > 0.0 <==> |p| <= n - k + 1
  {
    CombQuotient(n, k, |p|);
    Comb(n - k + 1, |p|) / Comb(n, k)
  }

  lemma CombQuotient(n: int, k: int, m: nat)
    requires 1 <= k <= n
    ensures Comb(n, k) > 0.0 && Binomial(n, k) >= 1
    ensures Comb(n - k + 1, m) / Comb(n, k) == (Binomial(n - k + 1, m) as real) / (Binomial(n, k) as real)
    ensures Comb(n - k + 1, m) / Comb(n, k) >= 0.0
    ensures Comb(n - k + 1, m) / Comb(n, k) > 0.0 <==> m <= n - k + 1
  {
    CombIsBinomial(n, k);
    CombIsBinomial(n - k + 1, m);
    CombPositive(n, k);
    CombPositive(n - k + 1, m);
    BinomialPositive(n, k);
  }

  /** `c / total * pp`: the share c of a total, scaled by pp. */
  function Share(c: int, total: int, pp: real): real
    requires total != 0
  {
    ((c as real) / (total as real)) * pp
  }

  /** `pp * c` */
  function Scale(c: int, pp: real): real {
    pp * (c as real)
  }

  lemma ShareAdd(a: int, c: int, total: int, pp: real)
    requires total != 0
    ensures Share(a, total, pp) + Share(c, total, pp) == Share(a + c, total, pp)
  {
    var t := total as real;
    assert (a as real) / t * pp == (a as real) * pp / t;
    assert (c as real) / t * pp == (c as real) * pp / t;
    assert ((a + c) as real) / t * pp == ((a as real) * pp + (c as real) * pp) / t;
  }

  lemma ShareWhole(total: int, pp: real)
    requires total != 0
    ensures Share(total, total, pp) == pp
  {
  }

  lemma ScaleAdd(a: int, c: int, pp: real)
    ensures Scale(a, pp) + Scale(c, pp) == Scale(a + c, pp)
  {
  }

  /** The quantities chain_probability accumulates over the decompositions of k. */
  datatype Quantity =
    | PerChain(i: int)   // prob_per_chain[i]
    | BySize(i: int)     // expected_chains_by_size[i]
    | Expected           // expected_chains
    | Probability        // the partition probabilities themselves

  /** The contribution of decomposition p to a quantity. */
  function Term(n: int, k: int, q: Quantity, p: seq<int>): real
    requires 1 <= k <= n
  {
    var pp := PartitionProbability(n, k, p);
    match q
    case PerChain(i) => if |p| == 0 then 0.0 else Share(multiset(p)[i + 1], |p|, pp)
    case BySize(i) => Scale(multiset(p)[i + 1], pp)
    case Expected => Scale(|p|, pp)
    case Probability => pp
  }

  /** Sum of a quantity over a list of decompositions, taken left to right. */
  function SeqSum(n: int, k: int, q: Quantity, ps: seq<seq<int>>): real
    requires 1 <= k <= n
  {
    if ps == [] then 0.0 else SeqSum(n, k, q, ps[..|ps| - 1]) + Term(n, k, q, ps[|ps| - 1])
  }

  /** Some member of a non-empty set of decompositions. */
  ghost function Pick(s: set<seq<int>>): (p: seq<int>)
    requires s != {}
    ensures p in s
  {
    assert exists p :: p in s by {
      var some := AnElement(s);
    }
    var p :| p in s;
    p
  }

  /** Sum of a quantity over a finite set of decompositions. */
  ghost function SetSum(n: int, k: int, q: Quantity, s: set<seq<int>>): real
    requires 1 <= k <= n
    decreases |s|
  {
    if s == {} then 0.0 else var p := Pick(s); Term(n, k, q, p) + SetSum(n, k, q, s - {p})
  }

  /** Taking out any one member takes out exactly its own term. */
  lemma {:induction false} SetSumRemove(n: int, k: int, q: Quantity, s: set<seq<int>>, x: seq<int>)
    requires 1 <= k <= n && x in s
    ensures SetSum(n, k, q, s) == Term(n, k, q, x) + SetSum(n, k, q, s - {x})
    decreases |s|
  {
    var p := Pick(s);
    if p != x {
      SetSumRemove(n, k, q, s - {p}, x);
      SetSumRemove(n, k, q, s - {x}, p);
      assert s - {p} - {x} == s - {x} - {p};
    }
  }

  /** A list holding each member of a set exactly once sums to the set's sum, so the
      sums do not depend on the order in which the set is listed. */
  lemma {:induction false} SeqSumIsSetSum(n: int, k: int, q: Quantity, ps: seq<seq<int>>, s: set<seq<int>>)
    requires 1 <= k <= n
    requires forall p :: p in ps <==> p in s
    requires forall i, j :: 0 <= i < j < |ps| ==> ps[i] != ps[j]
    ensures SeqSum(n, k, q, ps) == SetSum(n, k, q, s)
  {
    if ps == [] {
      if s != {} {
        var p := Pick(s);
        assert false;
      }
    } else {
      var init, last := ps[..|ps| - 1], ps[|ps| - 1];
      assert last in s;
      forall p ensures p in init <==> p in s - {last} {
        if p in init {
          var i :| 0 <= i < |init| && init[i] == p;
          assert ps[i] == p;
        }
        if p in s - {last} {
          assert p in ps;
          var i :| 0 <= i < |ps| && ps[i] == p;
          assert i < |init|;
          assert init[i] == p;
        }
      }
      SeqSumIsSetSum(n, k, q, init, s - {last});
      SetSumRemove(n, k, q, s, last);
    }
  }

  /** Sum of a vector of reals. */
  function RealSum(s: seq<real>): real {
    if s == [] then 0.0 else RealSum(s[..|s| - 1]) + s[|s| - 1]
  }

  lemma {:induction false} RealSumUpdate(s: seq<real>, j: int, v: real)
    requires 0 <= j < |s|
    ensures RealSum(s[j := v]) == RealSum(s) - s[j] + v
  {
    var t := s[j := v];
    if j < |s| - 1 {
      RealSumUpdate(s[..|s| - 1], j, v);
      assert t[..|t| - 1] == s[..|s| - 1][j := v];
    } else {
      assert t[..|t| - 1] == s[..|s| - 1];
    }
  }

  /** `a += v` on a vector of reals. */
  method AddVector(a: array<real>, v: seq<real>)
    requires a.Length == |v|
    modifies a
    ensures forall j :: 0 <= j < |v| ==> a[j] == old(a[j]) + v[j]
    ensures RealSum(a[..]) == old(RealSum(a[..])) + RealSum(v)
  {
    for i := 0 to |v|
      invariant forall j :: 0 <= j < i ==> a[j] == old(a[j]) + v[j]
      invariant forall j :: i <= j < |v| ==> a[j] == old(a[j])
      invariant RealSum(a[..]) == old(RealSum(a[..])) + RealSum(v[..i])
    {
      assert v[..i + 1][..i] == v[..i];
      RealSumUpdate(a[..], i, a[i] + v[i]);
      a[i] := a[i] + v[i];
    }
    assert v[..|v|] == v;
  }

  /** The shares of a total add up to the share of their sum. */
  lemma {:induction false} SumShares(v: seq<real>, counts: seq<int>, total: int, pp: real)
    requires |v| == |counts| && total != 0
    requires forall j :: 0 <= j < |v| ==> v[j] == Share(counts[j], total, pp)
    ensures RealSum(v) == Share(VectorSum(counts, false), total, pp)
  {
    if v == [] {
      assert Share(0, total, pp) == 0.0;
    } else {
      var m := |v| - 1;
      SumShares(v[..m], counts[..m], total, pp);
      ShareAdd(VectorSum(counts[..m], false), counts[m], total, pp);
    }
  }

  /** The scaled counts add up to their scaled sum. */
  lemma {:induction false} SumScaled(v: seq<real>, counts: seq<int>, pp: real)
    requires |v| == |counts|
    requires forall j :: 0 <= j < |v| ==> v[j] == Scale(counts[j], pp)
    ensures RealSum(v) == Scale(VectorSum(counts, false), pp)
  {
    if v == [] {
      assert Scale(0, pp) == 0.0;
    } else {
      var m := |v| - 1;
      SumScaled(v[..m], counts[..m], pp);
      ScaleAdd(VectorSum(counts[..m], false), counts[m], pp);
    }
  }

  /** `chains / np.sum(chains) * pp`: the share of p's chains having each length,
      scaled by pp. The shares add up to pp. */
  function ShareVector(p: seq<int>, counts: seq<int>, pp: real): (v: seq<real>)
    requires |p| >= 1
    requires forall j :: 0 <= j < |counts| ==> counts[j] == multiset(p)[j + 1]
    requires VectorSum(counts, false) == |p|
    ensures |v| == |counts|
    ensures forall j :: 0 <= j < |v| ==> v[j] == Share(multiset(p)[j + 1], |p|, pp)
    ensures RealSum(v) == pp
  {
    var total := VectorSum(counts, false);
    var v := seq(|counts|, j requires 0 <= j < |counts| => Share(counts[j], total, pp));
    SumShares(v, counts, total, pp);
    ShareWhole(total, pp);
    v
  }

  /** `pp * chains`; it adds up to pp * len(p). */
  function ScaledVector(p: seq<int>, counts: seq<int>, pp: real): (v: seq<real>)
    requires forall j :: 0 <= j < |counts| ==> counts[j] == multiset(p)[j + 1]
    requires VectorSum(counts, false) == |p|
    ensures |v| == |counts|
    ensures forall j :: 0 <= j < |v| ==> v[j] == Scale(multiset(p)[j + 1], pp)
    ensures RealSum(v) == Scale(|p|, pp)
  {
    var v := seq(|counts|, j requires 0 <= j < |counts| => Scale(counts[j], pp));
    SumScaled(v, counts, pp);
    v
  }

  /** The vector updates of one iteration of chain_probability's loop, for a
      decomposition p of k with probability pp: prob_per_chain gains p's share of
      chains of each length, scaled by pp; expected_chains gains pp * len(p); and
      expected_chains_by_size gains pp * chains_per_partition(p). */
  method AccumulatePartition(k: int, p: seq<int>, pp: real, probPerChain: array<real>, bySize: array<real>, expected: real)
    returns (expected': real)
    requires IsComposition(p, k)
    requires probPerChain != bySize && probPerChain.Length == k && bySize.Length == k
    modifies probPerChain, bySize
    ensures forall i :: 0 <= i < k ==> probPerChain[i] == old(probPerChain[i]) + Share(multiset(p)[i + 1], |p|, pp)
    ensures forall i :: 0 <= i < k ==> bySize[i] == old(bySize[i]) + Scale(multiset(p)[i + 1], pp)
    ensures expected' == expected + Scale(|p|, pp)
    ensures RealSum(probPerChain[..]) == old(RealSum(probPerChain[..])) + pp
    ensures RealSum(bySize[..]) == old(RealSum(bySize[..])) + Scale(|p|, pp)
  {
    var chains := ChainsPerPartition(p);
    var counts := chains[..];
    AddVector(probPerChain, ShareVector(p, counts, pp));
    expected' := expected + pp * (|p| as real);
    AddVector(bySize, ScaledVector(p, counts, pp));
  }

  /** The terms of decomposition p, for pp its partition probability. */
  lemma TermsOf(n: int, k: int, p: seq<int>, pp: real)
    requires 1 <= k <= n && |p| >= 1 && pp == PartitionProbability(n, k, p)
    ensures forall i :: Term(n, k, PerChain(i), p) == Share(multiset(p)[i + 1], |p|, pp)
    ensures forall i :: Term(n, k, BySize(i), p) == Scale(multiset(p)[i + 1], pp)
    ensures Term(n, k, Expected, p) == Scale(|p|, pp)
    ensures Term(n, k, Probability, p) == pp
  {
  }

  lemma SeqSumSnoc(n: int, k: int, q: Quantity, ps: seq<seq<int>>, t: int)
    requires 1 <= k <= n && 0 <= t < |ps|
    ensures SeqSum(n, k, q, ps[..t + 1]) == SeqSum(n, k, q, ps[..t]) + Term(n, k, q, ps[t])
  {
    assert ps[..t + 1][..t] == ps[..t];
  }

  /** `chain_probability(n, k)`: for k writes spread uniformly over n blocks, the
      distribution of a chain's length, the expected number of chains, and the
      expected number of chains of each length, each summed over partition(k). The
      expected chains by size add up to the expected number of chains, and the
      per-length probabilities add up to the total partition probability. */
  method ChainProbability(n: int, k: int) returns (probPerChain: array<real>, expected: real, bySize: array<real>)
    requires 1 <= k <= n
    ensures fresh(probPerChain) && fresh(bySize) && probPerChain != bySize
    ensures probPerChain.Length == k && bySize.Length == k
    ensures forall i :: 0 <= i < k ==> probPerChain[i] == SetSum(n, k, PerChain(i), Partition(k))
    ensures forall i :: 0 <= i < k ==> bySize[i] == SetSum(n, k, BySize(i), Partition(k))
    ensures expected == SetSum(n, k, Expected, Partition(k))
    ensures RealSum(bySize[..]) == expected
    ensures RealSum(probPerChain[..]) == SetSum(n, k, Probability, Partition(k))
  {
    probPerChain := new real[k](_ => 0.0);
    expected := 0.0;
    bySize := new real[k](_ => 0.0);
    ZeroSum(probPerChain[..]);
    ZeroSum(bySize[..]);
    CombPositive(n, k);
    var ps := AllPartitions(k);
    for t := 0 to |ps|
      invariant forall i :: 0 <= i < k ==> probPerChain[i] == SeqSum(n, k, PerChain(i), ps[..t])
      invariant forall i :: 0 <= i < k ==> bySize[i] == SeqSum(n, k, BySize(i), ps[..t])
      invariant expected == SeqSum(n, k, Expected, ps[..t])
      invariant RealSum(bySize[..]) == expected
      invariant RealSum(probPerChain[..]) == SeqSum(n, k, Probability, ps[..t])
    {
      var p := ps[t];
      PartitionIsCompositions(k, p);
      var partitionProbability := Comb(n - k + 1, |p|) / Comb(n, k);
      expected := AccumulatePartition(k, p, partitionProbability, probPerChain, bySize, expected);
      TermsOf(n, k, p, partitionProbability);
      forall i | 0 <= i < k
        ensures probPerChain[i] == SeqSum(n, k, PerChain(i), ps[..t + 1])
        ensures bySize[i] == SeqSum(n, k, BySize(i), ps[..t + 1])
      {
        SeqSumSnoc(n, k, PerChain(i), ps, t);
        SeqSumSnoc(n, k, BySize(i), ps, t);
      }
      SeqSumSnoc(n, k, Expected, ps, t);
      SeqSumSnoc(n, k, Probability, ps, t);
    }
    assert ps[..|ps|] == ps;
    forall i | 0 <= i < k
      ensures probPerChain[i] == SetSum(n, k, PerChain(i), Partition(k))
      ensures bySize[i] == SetSum(n, k, BySize(i), Partition(k))
    {
      SeqSumIsSetSum(n, k, PerChain(i), ps, Partition(k));
      SeqSumIsSetSum(n, k, BySize(i), ps, Partition(k));
    }
    SeqSumIsSetSum(n, k, Expected, ps, Partition(k));
    SeqSumIsSetSum(n, k, Probability, ps, Partition(k));
  }

  lemma {:induction false} ZeroSum(s: seq<real>)
    requires forall i :: 0 <= i < |s| ==> s[i] == 0.0
    ensures RealSum(s) == 0.0
  {
    if s != [] {
      ZeroSum(s[..|s| - 1]);
    }
  }

  // ---------------------------------------------------------------------------
  // Uniform writes

  lemma {:induction false} OnesUpdate(s: seq<int>, j: int, v: int)
    requires 0 <= j < |s|
    ensures Ones(s[j := v]) == Ones(s) - (if s[j] == 1 then 1 else 0) + (if v == 1 then 1 else 0)
  {
    var t := s[j := v];
    if j < |s| - 1 {
      OnesUpdate(s[..|s| - 1], j, v);
      assert t[..|t| - 1] == s[..|s| - 1][j := v];
    } else {
      assert t[..|t| - 1] == s[..|s| - 1];
    }
  }

  lemma {:induction false} UnwrittenSlot(s: seq<int>) returns (j: int)
    requires Ones(s) < |s|
    ensures 0 <= j < |s| && s[j] != 1
  {
    if s[|s| - 1] != 1 {
      j := |s| - 1;
    } else {
      j := UnwrittenSlot(s[..|s| - 1]);
    }
  }

  lemma UnwrittenExists(s: seq<int>)
    requires Ones(s) < |s|
    ensures exists j :: 0 <= j < |s| && s[j] != 1
  {
    var j := UnwrittenSlot(s);
  }

  lemma {:induction false} OnesZeros(s: seq<int>)
    requires forall i :: 0 <= i < |s| ==> s[i] == 0
    ensures Ones(s) == 0
  {
    if s != [] {
      OnesZeros(s[..|s| - 1]);
    }
  }

  /** `random_writes(disk_size, writes)`: a disk of `disk_size` zero blocks on which
      `writes` distinct blocks are set to 1. Each write goes to a block that does not
      yet hold a 1; which one (uniformly random in the source) is left open. */
  method RandomWrites(diskSize: int, writes: int) returns (disk: array<int>)
    requires 0 <= diskSize && writes <= diskSize
    ensures fresh(disk) && disk.Length == diskSize
    ensures forall i :: 0 <= i < diskSize ==> disk[i] == 0 || disk[i] == 1
    ensures Ones(disk[..]) == if writes < 0 then 0 else writes
  {
    disk := new int[diskSize](_ => 0);
    OnesZeros(disk[..]);
    var w := 0;
    while w < writes
      invariant 0 <= w <= if writes < 0 then 0 else writes
      invariant forall i :: 0 <= i < diskSize ==> disk[i] == 0 || disk[i] == 1
      invariant Ones(disk[..]) == w
      decreases writes - w
    {
      UnwrittenExists(disk[..]);
      var i :| 0 <= i < disk.Length && disk[..][i] != 1;
      OnesUpdate(disk[..], i, 1);
      disk[i] := 1;
      w := w + 1;
    }
  }
}
