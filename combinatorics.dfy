/** The combinatorics kernel of uniform_writes.py: binomial coefficients,
    the chain-length vector of one decomposition, and the set of all ordered
    decompositions of an integer into positive parts. */
module Combinatorics {
  import opened Histograms

  function Fact(n: nat): (r: nat)
    ensures r >= 1
  {
    if n == 0 then 1 else n * Fact(n - 1)
  }

  /** `comb(n, r)`: n! / (r! (n-r)!) computed with true division, 0 when r > n. */
  function Comb(n: int, r: nat): real {
    if r <= n then (Fact(n) as real) / ((Fact(r) * Fact(n - r)) as real) else 0.0
  }

  /** Pascal's triangle: the reference definition of the binomial coefficient. */
  function Binomial(n: nat, r: nat): nat {
    if r == 0 then 1
    else if n == 0 then 0
    else Binomial(n - 1, r - 1) + Binomial(n - 1, r)
  }

  lemma {:induction false} BinomialBeyond(n: nat, r: nat)
    requires r > n
    ensures Binomial(n, r) == 0
  {
    if n > 0 {
      BinomialBeyond(n - 1, r - 1);
      BinomialBeyond(n - 1, r);
    }
  }

  /** The algebra of one Pascal step, on plain integers. */
  lemma PascalStep(b1: int, b2: int, g: int, h: int, r: int, nr: int, f: int)
    requires b1 * (g * (nr * h)) == f
    requires b2 * ((r * g) * h) == f
    ensures (b1 + b2) * ((r * g) * (nr * h)) == (r + nr) * f
  {
    assert b1 * ((r * g) * (nr * h)) == r * (b1 * (g * (nr * h)));
    assert b2 * ((r * g) * (nr * h)) == nr * (b2 * ((r * g) * h));
  }

  /** n! = C(n, r) * r! * (n-r)! for the Pascal-triangle coefficient. */
  lemma {:induction false} FactBinomial(n: nat, r: nat)
    requires r <= n
    ensures Binomial(n, r) * (Fact(r) * Fact(n - r)) == Fact(n)
  {
    var f := Fact(n);
    if r == 0 {
      assert Binomial(n, 0) == 1 && Fact(0) == 1 && n - r == n;
      assert 1 * (1 * f) == f;
    } else if r == n {
      BinomialDiagonal(n);
      assert Fact(r) == f && Fact(n - r) == 1;
      assert 1 * (f * 1) == f;
    } else {
      FactBinomial(n - 1, r - 1);
      FactBinomial(n - 1, r);
      FactBinomialStep(n, r);
    }
  }

  /** Row n of Pascal's triangle ends in 1. */
  lemma {:induction false} BinomialDiagonal(n: nat)
    ensures Binomial(n, n) == 1
  {
    if n > 0 {
      BinomialDiagonal(n - 1);
      BinomialBeyond(n - 1, n);
    }
  }

  /** The inductive step of FactBinomial: Pascal's rule carries the identity from
      row n - 1 to row n. */
  lemma FactBinomialStep(n: nat, r: nat)
    requires 0 < r < n
    requires Binomial(n - 1, r - 1) * (Fact(r - 1) * Fact(n - r)) == Fact(n - 1)
    requires Binomial(n - 1, r) * (Fact(r) * Fact(n - 1 - r)) == Fact(n - 1)
    ensures Binomial(n, r) * (Fact(r) * Fact(n - r)) == Fact(n)
  {
    var b1, b2 := Binomial(n - 1, r - 1), Binomial(n - 1, r);
    var f, g, h, nr := Fact(n - 1), Fact(r - 1), Fact(n - 1 - r), n - r;
    assert Fact(r) == r * g;
    assert Fact(nr) == nr * h;
    assert b1 * (g * (nr * h)) == f;
    assert b2 * ((r * g) * h) == f;
    PascalStep(b1, b2, g, h, r, nr, f);
    assert Binomial(n, r) == b1 + b2;
    assert Fact(n) == (r + nr) * f;
  }

  lemma DivExact(b: int, d: int)
    requires d > 0
    ensures ((b * d) as real) / (d as real) == b as real
  {
    assert (b * d) as real == (b as real) * (d as real);
  }

  /** comb agrees with Pascal's triangle; in particular the true division in comb
      is exact and comb is always a whole number. */
  lemma CombIsBinomial(n: nat, r: nat)
    ensures Comb(n, r) == Binomial(n, r) as real
  {
    if r > n {
      BinomialBeyond(n, r);
    } else {
      FactBinomial(n, r);
      DivExact(Binomial(n, r), Fact(r) * Fact(n - r));
    }
  }

  lemma {:induction false} BinomialPositive(n: nat, r: nat)
    requires r <= n
    ensures Binomial(n, r) >= 1
  {
    if r > 0 {
      BinomialPositive(n - 1, r - 1);
    }
  }

  /** comb(n, r) is positive exactly when r <= n. */
  lemma CombPositive(n: nat, r: nat)
    ensures Comb(n, r) > 0.0 <==> r <= n
  {
    CombIsBinomial(n, r);
    if r <= n {
      BinomialPositive(n, r);
    }
  }

  // ---------------------------------------------------------------------------
  // chains_per_partition

  /** Counting the parts of each length 1..n counts every part once: the counts add
      up to the number of parts, and length * count adds up to the sum of the parts. */
  lemma CountsUpToParts(part: seq<int>, n: int)
    requires forall i :: 0 <= i < |part| ==> 1 <= part[i] <= n
    ensures SumUpTo(HistogramOf(part), n, false) == |part|
    ensures SumUpTo(HistogramOf(part), n, true) == Sum(part)
  {
    HistogramOfCounts(part);
    HistogramOfSums(part);
    MapSumAsRange(HistogramOf(part), n, false);
    MapSumAsRange(HistogramOf(part), n, true);
  }

  /** `np.sum` of a count vector indexed by length - 1, weighted by length when asked. */
  function VectorSum(v: seq<int>, weighted: bool): int {
    if v == [] then 0 else VectorSum(v[..|v| - 1], weighted) + Weight(|v|, weighted) * v[|v| - 1]
  }

  lemma {:induction false} VectorSumCounts(v: seq<int>, d: Histogram, weighted: bool)
    requires forall i :: 0 <= i < |v| ==> v[i] == Get(d, i + 1)
    ensures VectorSum(v, weighted) == SumUpTo(d, |v|, weighted)
  {
    if v != [] {
      VectorSumCounts(v[..|v| - 1], d, weighted);
    }
  }

  lemma {:induction false} PartsAtMostSum(part: seq<int>)
    requires forall i :: 0 <= i < |part| ==> part[i] >= 1
    ensures forall i :: 0 <= i < |part| ==> part[i] <= Sum(part)
    ensures Sum(part) >= |part|
  {
    if part != [] {
      PartsAtMostSum(part[1..]);
      forall i | 0 <= i < |part| ensures part[i] <= Sum(part) {
        if i > 0 {
          assert part[i] == part[1..][i - 1];
        }
      }
    }
  }

  /** `chains_per_partition(part)`: entry i counts the parts of length i + 1. */
  method ChainsPerPartition(part: seq<int>) returns (r: array<int>)
    requires forall i :: 0 <= i < |part| ==> part[i] >= 1
    ensures fresh(r) && r.Length == Sum(part)
    ensures forall i :: 0 <= i < r.Length ==> r[i] == multiset(part)[i + 1]
    ensures VectorSum(r[..], false) == |part|
    ensures VectorSum(r[..], true) == Sum(part)
  {
    PartsAtMostSum(part);
    r := new int[Sum(part)](_ => 0);
    for t := 0 to |part|
      invariant forall i :: 0 <= i < r.Length ==> r[i] == multiset(part[..t])[i + 1]
    {
      var p := part[t];
      r[p - 1] := r[p - 1] + 1;
      assert part[..t + 1] == part[..t] + [p];
    }
    assert part[..|part|] == part;
    HistogramOfCounts(part);
    VectorSumCounts(r[..], HistogramOf(part), false);
    VectorSumCounts(r[..], HistogramOf(part), true);
    CountsUpToParts(part, r.Length);
  }

  // ---------------------------------------------------------------------------
  // partition and all_partitions

  /** The members of s, each with x prepended (`(x,) + y` for y in s). */
  function Prefixed(x: int, s: set<seq<int>>): set<seq<int>> {
    set y | y in s :: [x] + y
  }

  /** `partition(number)`: the tuple (number,), together with (x,) + y for every
      x in range(1, number) and every y in partition(number - x). */
  function Partition(n: int): (ps: set<seq<int>>)
    ensures [n] in ps
    decreases n, 1, 0
  {
    if n <= 1 then {[n]} else {[n]} + Tails(n, n - 1)
  }

  /** The contribution of the loop iterations x = 1..m of `partition(n)`. */
  function Tails(n: int, m: int): set<seq<int>>
    requires 0 <= m < n
    decreases n, 0, m
  {
    if m == 0 then {} else Tails(n, m - 1) + Prefixed(m, Partition(n - m))
  }

  lemma PrefixedMembers(x: int, s: set<seq<int>>, z: seq<int>)
    ensures z in Prefixed(x, s) <==> |z| >= 1 && z[0] == x && z[1..] in s
  {
    if z in Prefixed(x, s) {
      var y :| y in s && z == [x] + y;
      assert z[1..] == y;
    }
    if |z| >= 1 && z[0] == x && z[1..] in s {
      assert z == [x] + z[1..];
    }
  }

  lemma {:induction false} TailsMembers(n: int, m: int, s: seq<int>)
    requires 0 <= m < n
    ensures s in Tails(n, m) <==> |s| >= 1 && 1 <= s[0] <= m && s[1..] in Partition(n - s[0])
    decreases m
  {
    if m > 0 {
      TailsMembers(n, m - 1, s);
      PrefixedMembers(m, Partition(n - m), s);
    }
  }

  /** An ordered decomposition of n into positive parts (a composition of n). */
  predicate IsComposition(s: seq<int>, n: int) {
    |s| >= 1 && (forall i :: 0 <= i < |s| ==> s[i] >= 1) && Sum(s) == n
  }

  /** For n >= 1, partition(n) is exactly the set of compositions of n: the order of
      the parts matters, so (1, 2) and (2, 1) are both members. */
  lemma {:induction false} PartitionIsCompositions(n: int, s: seq<int>)
    requires n >= 1
    ensures s in Partition(n) <==> IsComposition(s, n)
    decreases n
  {
    if s == [n] {
      assert Sum(s) == n + Sum([]);
    } else if |s| >= 1 {
      if 1 <= s[0] < n {
        PartitionIsCompositions(n - s[0], s[1..]);
      }
      CompositionStep(n, s);
    } else {
      if n > 1 {
        TailsMembers(n, n - 1, s);
      }
    }
  }

  /** The step of PartitionIsCompositions for a tuple other than (n): it is in
      partition(n) exactly when its head x is in 1..n-1 and its tail is a
      composition of n - x, given that fact for the tail. */
  lemma CompositionStep(n: int, s: seq<int>)
    requires n >= 1 && |s| >= 1 && s != [n]
    requires 1 <= s[0] < n ==> (s[1..] in Partition(n - s[0]) <==> IsComposition(s[1..], n - s[0]))
    ensures s in Partition(n) <==> IsComposition(s, n)
  {
    CompositionSplit(n, s);
    PartitionSplit(n, s);
    if s[0] >= 1 && IsComposition(s[1..], n - s[0]) {
      PartsAtMostSum(s[1..]);
    }
  }

  /** A tuple other than (n) is a composition of n exactly when its head is positive
      and its tail is a composition of the rest. */
  lemma CompositionSplit(n: int, s: seq<int>)
    requires |s| >= 1 && s != [n]
    ensures IsComposition(s, n) <==> s[0] >= 1 && IsComposition(s[1..], n - s[0])
  {
    var x, y := s[0], s[1..];
    assert s == [x] + y;
    assert Sum(s) == x + Sum(y);
    assert forall i :: 0 <= i < |y| ==> y[i] == s[i + 1];
  }

  /** A tuple other than (n) is in partition(n) exactly when it comes from the loop:
      its head x is in 1..n-1 and its tail is in partition(n - x). */
  lemma PartitionSplit(n: int, s: seq<int>)
    requires n >= 1 && |s| >= 1 && s != [n]
    ensures s in Partition(n) <==> 1 <= s[0] < n && s[1..] in Partition(n - s[0])
  {
    if n > 1 {
      TailsMembers(n, n - 1, s);
    }
  }

  function Pow2(k: nat): nat {
    if k == 0 then 1 else 2 * Pow2(k - 1)
  }

  lemma {:induction false} PrefixedCard(x: int, s: set<seq<int>>)
    ensures |Prefixed(x, s)| == |s|
    decreases |s|
  {
    if s != {} {
      var e := AnElement(s);
      var rest := s - {e};
      PrefixedCard(x, rest);
      forall z ensures z in Prefixed(x, s) <==> z in Prefixed(x, rest) + {[x] + e} {
        PrefixedMembers(x, s, z);
        PrefixedMembers(x, rest, z);
        if z == [x] + e {
          assert z[1..] == e;
        }
        if |z| >= 1 && z[0] == x && z[1..] == e {
          assert z == [x] + e;
        }
      }
      assert Prefixed(x, s) == Prefixed(x, rest) + {[x] + e};
      PrefixedMembers(x, rest, [x] + e);
      assert ([x] + e)[1..] == e;
    } else {
      forall z ensures z !in Prefixed(x, s) {
        PrefixedMembers(x, s, z);
      }
      assert Prefixed(x, s) == {};
    }
  }

  /** Each loop iteration adds decompositions not seen before: their first part is new. */
  lemma TailsStepCard(n: int, m: int)
    requires 0 < m < n
    ensures |Tails(n, m)| == |Tails(n, m - 1)| + |Partition(n - m)|
  {
    var a, b := Tails(n, m - 1), Prefixed(m, Partition(n - m));
    forall s | s in a ensures s !in b {
      TailsMembers(n, m - 1, s);
      PrefixedMembers(m, Partition(n - m), s);
    }
    assert a * b == {};
    assert |a + b| == |a| + |b|;
    PrefixedCard(m, Partition(n - m));
  }

  lemma {:induction false} TailsCard(n: int, m: int)
    requires 0 <= m < n
    ensures |Tails(n, m)| + Pow2(n - 1 - m) == Pow2(n - 1)
    decreases n, 0, m
  {
    if m == 0 {
      assert Tails(n, 0) == {};
    } else {
      TailsCard(n, m - 1);
      TailsStepCard(n, m);
      PartitionCard(n - m);
      HalfStep(n, m, |Tails(n, m)|, |Tails(n, m - 1)|, |Partition(n - m)|);
    }
  }

  /** partition(n) has 2^(n-1) members for n >= 1 (the compositions of n; the
      partitions of n in the unordered sense are fewer, e.g. 3 against 4 for n = 3). */
  lemma {:induction false} PartitionCard(n: int)
    requires n >= 1
    ensures |Partition(n)| == Pow2(n - 1)
    decreases n, 1
  {
    if n > 1 {
      TailsCard(n, n - 1);
      TailsMembers(n, n - 1, [n]);
      assert [n] !in Tails(n, n - 1);
    }
  }

  /** The arithmetic of TailsCard's step: adding 2^(n-1-m) to a count 2^(n-m) short
      of 2^(n-1) leaves it 2^(n-1-m) short. */
  lemma HalfStep(n: int, m: int, t: int, a: int, b: int)
    requires 0 < m < n
    requires t == a + b && b == Pow2(n - m - 1) && a + Pow2(n - 1 - (m - 1)) == Pow2(n - 1)
    ensures t + Pow2(n - 1 - m) == Pow2(n - 1)
  {
    assert Pow2(n - 1 - (m - 1)) == 2 * Pow2(n - 1 - m);
  }

  /** `all_partitions(n)`: the members of partition(n) as a list, each exactly once,
      in the set's iteration order (which the model leaves open). */
  method AllPartitions(n: int) returns (ps: seq<seq<int>>)
    ensures forall p :: p in ps <==> p in Partition(n)
    ensures forall i, j :: 0 <= i < j < |ps| ==> ps[i] != ps[j]
    ensures |ps| == |Partition(n)|
  {
    var rest := Partition(n);
    ps := [];
    while rest != {}
      invariant rest <= Partition(n)
      invariant forall p :: p in ps <==> p in Partition(n) && p !in rest
      invariant forall i, j :: 0 <= i < j < |ps| ==> ps[i] != ps[j]
      invariant |ps| + |rest| == |Partition(n)|
      decreases |rest|
    {
      ghost var some := AnElement(rest);
      var p :| p in rest;
      ps := ps + [p];
      rest := rest - {p};
    }
  }
}
