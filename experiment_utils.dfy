/** The detection pipeline's bookkeeping (src/experiment_utils.py): drawing a clean
    chain histogram from a measured trace table, planting Artifice singletons in it,
    building the labelled dataset, the singleton-fraction feature and the detector's
    metrics. Random draws come from a supplied stream `rng`, read from position `start`
    onwards; every sampler returns the position of the next unread draw. */
module ExperimentUtils {
  import opened Histograms

  // ---------------------------------------------------------------------------
  // Trace tables and inverse-CDF sampling

  /** One row of a trace table, as consecutive_change_dict_to_matrix lays it out:
      chain length, number of occurrences, share of all chains. */
  datatype TraceRow = TraceRow(length: int, count: real, prob: real)

  /** A table the sampler can draw from: at least one row (the cumulative column's
      last entry is overwritten) and only positive chain lengths (every draw adds to
      the running total, so each run's loop ends). */
  predicate IsTable(disk: seq<TraceRow>) {
    |disk| >= 1 && forall j :: 0 <= j < |disk| ==> disk[j].length >= 1
  }

  /** `k` is the chain length of some row of the table. */
  predicate IsLength(disk: seq<TraceRow>, k: int) {
    exists j :: 0 <= j < |disk| && disk[j].length == k
  }

  /** Sum of the first `n` entries of the probability column. */
  function PrefixProb(disk: seq<TraceRow>, n: nat): real
    requires n <= |disk|
  {
    if n == 0 then 0.0 else PrefixProb(disk, n - 1) + disk[n - 1].prob
  }

  /** The cumulative sum of the probability column with its last entry forced to 1.0,
      so that every draw below 1.0 finds a row whatever the rounding of the column. */
  function Cumulative(disk: seq<TraceRow>): (c: seq<real>)
    requires |disk| >= 1
    ensures |c| == |disk| && c[|c| - 1] == 1.0
    ensures forall i :: 0 <= i < |c| - 1 ==> c[i] == PrefixProb(disk, i + 1)
  {
    PrefixSums(disk, |disk| - 1) + [1.0]
  }

  /** The first `n` running totals of the probability column. */
  function PrefixSums(disk: seq<TraceRow>, n: nat): (c: seq<real>)
    requires n <= |disk|
    ensures |c| == n && forall i :: 0 <= i < n ==> c[i] == PrefixProb(disk, i + 1)
  {
    if n == 0 then [] else PrefixSums(disk, n - 1) + [PrefixProb(disk, n)]
  }

  /** Some entry of `c` is at least `x`. */
  predicate Reaches(c: seq<real>, x: real) {
    exists i :: 0 <= i < |c| && c[i] >= x
  }

  /** numpy's argmax over the boolean vector `c >= x` (`FirstAtLeastIsFirst` says
      what it finds). */
  function FirstAtLeast(c: seq<real>, x: real): (r: nat)
    ensures |c| > 0 ==> r < |c|
  {
    if c == [] || c[0] >= x then 0
    else if Reaches(c[1..], x) then 1 + FirstAtLeast(c[1..], x)
    else 0
  }

  /** The search returns the first index whose value is at least `x`, and index 0
      when no entry is. */
  lemma {:induction false} FirstAtLeastIsFirst(c: seq<real>, x: real)
    ensures Reaches(c, x) ==> c[FirstAtLeast(c, x)] >= x
    ensures Reaches(c, x) ==> forall j :: 0 <= j < FirstAtLeast(c, x) ==> c[j] < x
    ensures !Reaches(c, x) ==> FirstAtLeast(c, x) == 0
  {
    if c != [] && c[0] < x {
      FirstAtLeastIsFirst(c[1..], x);
      if Reaches(c[1..], x) {
        forall j | 1 <= j < FirstAtLeast(c, x) ensures c[j] < x {
          assert c[j] == c[1..][j - 1];
        }
      } else {
        forall i | 0 < i < |c| ensures c[i] < x {
          assert c[i] == c[1..][i - 1];
        }
      }
    }
  }

  /** The forced last entry makes the search succeed for every draw up to 1.0. */
  lemma DrawFindsRow(disk: seq<TraceRow>, x: real)
    requires |disk| >= 1 && x <= 1.0
    ensures Cumulative(disk)[FirstAtLeast(Cumulative(disk), x)] >= x
    ensures forall j :: 0 <= j < FirstAtLeast(Cumulative(disk), x) ==> Cumulative(disk)[j] < x
  {
    var c := Cumulative(disk);
    assert c[|c| - 1] >= x;
    FirstAtLeastIsFirst(c, x);
  }

  /** The chain length drawn with draw `x` (experiment_utils.py lines 27-29). */
  function ChainAt(disk: seq<TraceRow>, x: real): (k: int)
    requires IsTable(disk)
    ensures k >= 1 && IsLength(disk, k)
  {
    var i := FirstAtLeast(Cumulative(disk), x);
    assert disk[i].length >= 1;
    disk[i].length
  }

  /** `run` holds the chain lengths drawn with draws rng(from), rng(from + 1), ... */
  predicate DrawnFrom(disk: seq<TraceRow>, rng: nat -> real, from: nat, run: seq<int>)
    requires IsTable(disk)
    decreases |run|
  {
    run == [] ||
    (DrawnFrom(disk, rng, from, run[..|run| - 1])
     && run[|run| - 1] == ChainAt(disk, rng(from + |run| - 1)))
  }

  /** Chain j of a drawn run is the one drawn with draw rng(from + j), so every chain is
      a length of the table. */
  lemma {:induction false} DrawnFromAt(disk: seq<TraceRow>, rng: nat -> real, from: nat, run: seq<int>, j: nat)
    requires IsTable(disk) && DrawnFrom(disk, rng, from, run) && j < |run|
    ensures run[j] == ChainAt(disk, rng(from + j))
    ensures IsLength(disk, run[j])
    decreases |run|
  {
    if j < |run| - 1 {
      var init := run[..|run| - 1];
      DrawnFromAt(disk, rng, from, init, j);
      assert init[j] == run[j];
    }
  }

  /** The number of draws taken by the runs `runs`. */
  function Consumed(runs: seq<seq<int>>): nat {
    if runs == [] then 0 else Consumed(runs[..|runs| - 1]) + |runs[|runs| - 1]|
  }

  /** The longest chain in the table. */
  function MaxLength(disk: seq<TraceRow>): (m: int)
    requires |disk| >= 1
    ensures IsLength(disk, m)
    ensures forall j :: 0 <= j < |disk| ==> disk[j].length <= m
  {
    if |disk| == 1 then disk[0].length
    else
      var rest := MaxLength(disk[1..]);
      assert forall j :: 1 <= j < |disk| ==> disk[j] == disk[1..][j - 1];
      if disk[0].length >= rest then disk[0].length else rest
  }

  /** A run stops as soon as its total reaches the target: the whole run reaches it and
      no proper prefix does (the loop condition at experiment_utils.py line 26). */
  predicate StopsAt(run: seq<int>, target: int) {
    Sum(run) >= target && forall j :: 0 <= j < |run| ==> Sum(run[..j]) < target
  }

  /** What a sampled histogram satisfies, whatever the draws were: its keys are chain
      lengths of the table, it holds at least `target` changes and overshoots by less
      than the longest chain, and a target of 0 or less leaves it empty. */
  predicate Sampled(disk: seq<TraceRow>, target: int, h: Histogram) {
    && ValidHistogram(h)
    && (forall k :: k in h ==> IsLength(disk, k))
    && TotalChanges(h) >= target
    && (target <= 0 ==> h == map[])
    && (target > 0 ==> |disk| >= 1 && TotalChanges(h) < target + MaxLength(disk))
  }

  lemma EmptyPrefix(s: seq<int>)
    ensures Sum(s[..0]) == 0
  {
    assert s[..0] == [];
  }

  /** A run that stops at a target of 0 or less draws nothing. */
  lemma StopsEmpty(run: seq<int>, target: int)
    requires StopsAt(run, target) && target <= 0
    ensures run == []
  {
    EmptyPrefix(run);
  }

  /** A run that stops at a positive target overshoots it by less than its last chain. */
  lemma StopsOvershoot(run: seq<int>, target: int)
    requires StopsAt(run, target) && target > 0
    ensures run != [] && Sum(run) < target + run[|run| - 1]
  {
    assert run != [];
    var init, last := run[..|run| - 1], run[|run| - 1];
    assert Sum(init) < target;
    assert run == init + [last];
    SumSnoc(init, last);
  }

  /** A run of table lengths that stops at the target gives a `Sampled` histogram. */
  lemma RunSummary(disk: seq<TraceRow>, rng: nat -> real, from: nat, target: int, run: seq<int>)
    requires IsTable(disk) && StopsAt(run, target) && DrawnFrom(disk, rng, from, run)
    ensures Sampled(disk, target, HistogramOf(run))
    ensures TotalChanges(HistogramOf(run)) == Sum(run)
  {
    var h := HistogramOf(run);
    forall j | 0 <= j < |run| ensures run[j] >= 1 && IsLength(disk, run[j]) {
      DrawnFromAt(disk, rng, from, run, j);
    }
    HistogramOfValid(run);
    HistogramOfCounts(run);
    HistogramOfSums(run);
    forall k | k in h ensures IsLength(disk, k) {
      var j :| 0 <= j < |run| && run[j] == k;
    }
    if target <= 0 {
      StopsEmpty(run, target);
    } else {
      StopsOvershoot(run, target);
      var w :| 0 <= w < |disk| && disk[w].length == run[|run| - 1];
    }
  }

  /** Drawing one more chain below the target keeps the run's prefixes below it. */
  lemma DrawStep(run: seq<int>, chain: int, target: int)
    requires Sum(run) < target
    requires forall j :: 0 <= j < |run| ==> Sum(run[..j]) < target
    ensures forall j :: 0 <= j < |run| + 1 ==> Sum((run + [chain])[..j]) < target
    ensures Sum(run + [chain]) == Sum(run) + chain
    ensures HistogramOf(run + [chain]) == Record(HistogramOf(run), chain)
  {
    forall j | 0 <= j <= |run| ensures Sum((run + [chain])[..j]) < target {
      assert (run + [chain])[..j] == run[..j];
    }
    assert (run + [chain])[..|run|] == run;
    SumSnoc(run, chain);
  }

  /** One run of get_clean_chains (experiment_utils.py lines 23-36): draw chains until
      their total reaches `target`, counting them in a fresh dictionary. */
  method SampleRun(disk: seq<TraceRow>, cumulative: seq<real>, target: int, rng: nat -> real, start: nat)
    returns (dict: Histogram, changes: int, next: nat, ghost run: seq<int>)
    requires IsTable(disk) && cumulative == Cumulative(disk)
    ensures StopsAt(run, target) && DrawnFrom(disk, rng, start, run)
    ensures next == start + |run|
    ensures changes == Sum(run) && dict == HistogramOf(run)
    ensures Sampled(disk, target, dict) && TotalChanges(dict) == changes
  {
    changes, dict, run, next := 0, map[], [], start;
    while changes < target
      invariant changes == Sum(run) && dict == HistogramOf(run)
      invariant forall j :: 0 <= j < |run| ==> Sum(run[..j]) < target
      invariant DrawnFrom(disk, rng, start, run) && next == start + |run|
      decreases target - changes
    {
      var rand := rng(next);
      var idx := FirstAtLeast(cumulative, rand);
      var chain := disk[idx].length;
      assert chain == ChainAt(disk, rand);
      if chain in dict {
        dict := dict[chain := dict[chain] + 1];
      } else {
        dict := dict[chain := 1];
      }
      DrawStep(run, chain, target);
      DrawnFromSnoc(disk, rng, start, run, chain);
      changes := changes + chain;
      run := run + [chain];
      next := next + 1;
    }
    RunSummary(disk, rng, start, target, run);
  }

  /** Every run stops at the target. */
  predicate RunsStop(target: int, samples: seq<seq<int>>)
    decreases |samples|
  {
    samples == [] ||
    (RunsStop(target, samples[..|samples| - 1]) && StopsAt(samples[|samples| - 1], target))
  }

  lemma {:induction false} RunsStopAt(target: int, samples: seq<seq<int>>, r: nat)
    requires RunsStop(target, samples) && r < |samples|
    ensures StopsAt(samples[r], target)
    decreases |samples|
  {
    if r < |samples| - 1 {
      var init := samples[..|samples| - 1];
      RunsStopAt(target, init, r);
      assert init[r] == samples[r];
    }
  }

  /** Every run was drawn right after the runs before it, from draw `start` on. */
  predicate RunsFrom(disk: seq<TraceRow>, rng: nat -> real, start: nat, samples: seq<seq<int>>)
    requires IsTable(disk)
    decreases |samples|
  {
    samples == [] ||
    (var init := samples[..|samples| - 1];
     RunsFrom(disk, rng, start, init) && DrawnFrom(disk, rng, start + Consumed(init), samples[|samples| - 1]))
  }

  lemma {:induction false} RunsFromAt(disk: seq<TraceRow>, rng: nat -> real, start: nat, samples: seq<seq<int>>, r: nat)
    requires IsTable(disk) && RunsFrom(disk, rng, start, samples) && r < |samples|
    ensures DrawnFrom(disk, rng, start + Consumed(samples[..r]), samples[r])
    decreases |samples|
  {
    if r < |samples| - 1 {
      var init := samples[..|samples| - 1];
      RunsFromAt(disk, rng, start, init, r);
      assert init[r] == samples[r] && init[..r] == samples[..r];
    }
  }

  /** The totals of the runs, in order. */
  function Totals(samples: seq<seq<int>>): (t: seq<int>)
    ensures |t| == |samples|
  {
    if samples == [] then [] else Totals(samples[..|samples| - 1]) + [Sum(samples[|samples| - 1])]
  }

  lemma {:induction false} TotalsAt(samples: seq<seq<int>>, r: nat)
    requires r < |samples|
    ensures Totals(samples)[r] == Sum(samples[r])
    decreases |samples|
  {
    if r < |samples| - 1 {
      var init := samples[..|samples| - 1];
      TotalsAt(init, r);
      assert init[r] == samples[r];
    }
  }

  /** Appending a run that stops at the target and was drawn right after the others
      keeps both summaries, and adds its draws and its total. */
  lemma RunsSnoc(disk: seq<TraceRow>, rng: nat -> real, start: nat, target: int,
                 samples: seq<seq<int>>, from: nat, run: seq<int>)
    requires IsTable(disk) && RunsStop(target, samples) && RunsFrom(disk, rng, start, samples)
    requires from == start + Consumed(samples)
    requires StopsAt(run, target) && DrawnFrom(disk, rng, from, run)
    ensures RunsStop(target, samples + [run]) && RunsFrom(disk, rng, start, samples + [run])
    ensures Consumed(samples + [run]) == Consumed(samples) + |run|
    ensures Totals(samples + [run]) == Totals(samples) + [Sum(run)]
  {
    assert (samples + [run])[..|samples|] == samples;
  }

  lemma DrawnFromSnoc(disk: seq<TraceRow>, rng: nat -> real, from: nat, run: seq<int>, chain: int)
    requires IsTable(disk) && DrawnFrom(disk, rng, from, run)
    requires chain == ChainAt(disk, rng(from + |run|))
    ensures DrawnFrom(disk, rng, from, run + [chain])
  {
    assert (run + [chain])[..|run|] == run;
  }

  /** Whichever run is kept, its histogram is `Sampled` and holds the run's total. */
  lemma ChosenRunSampled(disk: seq<TraceRow>, rng: nat -> real, start: nat, target: int,
                         samples: seq<seq<int>>, best: nat)
    requires IsTable(disk) && best < |samples|
    requires RunsStop(target, samples) && RunsFrom(disk, rng, start, samples)
    ensures Sampled(disk, target, HistogramOf(samples[best]))
    ensures TotalChanges(HistogramOf(samples[best])) == Sum(samples[best]) == Totals(samples)[best]
  {
    TotalsAt(samples, best);
    RunsStopAt(target, samples, best);
    RunsFromAt(disk, rng, start, samples, best);
    RunSummary(disk, rng, start + Consumed(samples[..best]), target, samples[best]);
  }

  /** Entry `best` is the smallest total, and every earlier entry is strictly larger. */
  predicate SmallestFirst(totals: seq<int>, best: nat)
    requires best < |totals|
  {
    && (forall r :: 0 <= r < |totals| ==> totals[best] <= totals[r])
    && (forall r :: 0 <= r < best ==> totals[r] > totals[best])
  }

  /** Keeping the earlier entry unless the new total is strictly smaller keeps the
      earliest smallest entry. */
  lemma SmallestFirstSnoc(totals: seq<int>, best: nat, t: int)
    requires best < |totals| && SmallestFirst(totals, best)
    ensures t < totals[best] ==> SmallestFirst(totals + [t], |totals|)
    ensures t >= totals[best] ==> SmallestFirst(totals + [t], best)
  {
  }

  /** get_clean_chains: `runs` times, draw chains by inverse-CDF sampling until their
      total reaches `targetChanges`, and return the histogram of the run with the
      smallest total, the earliest such run on a tie. The ghost `samples` are the
      runs' chain lists, drawn one after another, and `minIdx` the run returned. */
  method GetCleanChains(disk: seq<TraceRow>, targetChanges: int, runs: int, rng: nat -> real, start: nat)
    returns (d: Histogram, next: nat, ghost samples: seq<seq<int>>, ghost minIdx: nat)
    requires IsTable(disk) && runs >= 1
    ensures |samples| == runs && minIdx < runs
    ensures RunsStop(targetChanges, samples) && RunsFrom(disk, rng, start, samples)
    ensures next == start + Consumed(samples)
    ensures SmallestFirst(Totals(samples), minIdx)
    ensures d == HistogramOf(samples[minIdx])
    ensures TotalChanges(d) == Sum(samples[minIdx])
    ensures Sampled(disk, targetChanges, d)
  {
    var cumulative := Cumulative(disk);
    var dicts: seq<Histogram> := [];
    var best := 0;
    var minChanges := 0;
    next := start;
    samples := [];
    ghost var totals: seq<int> := [];
    for i := 0 to runs
      invariant |dicts| == i && |samples| == i && totals == Totals(samples)
      invariant next == start + Consumed(samples)
      invariant forall r :: 0 <= r < i ==> dicts[r] == HistogramOf(samples[r])
      invariant RunsStop(targetChanges, samples) && RunsFrom(disk, rng, start, samples)
      invariant i == 0 ==> best == 0
      invariant i > 0 ==> best < i && minChanges == totals[best] && SmallestFirst(totals, best)
    {
      var dict, changes, nx, run := SampleRun(disk, cumulative, targetChanges, rng, next);
      RunsSnoc(disk, rng, start, targetChanges, samples, next, run);
      if i > 0 {
        SmallestFirstSnoc(totals, best, changes);
      }
      // min_changes starts at infinity, so the first run is always taken.
      if i == 0 || changes < minChanges {
        best := i;
        minChanges := changes;
      }
      dicts, samples, next := dicts + [dict], samples + [run], nx;
      totals := totals + [changes];
    }
    d := dicts[best];
    minIdx := best;
    ChosenRunSampled(disk, rng, start, targetChanges, samples, best);
  }

  /** What one call of get_clean_chains drew: the stream position it started from,
      the chain lists of its runs, and the run it returned. */
  datatype SampleTrace = SampleTrace(start: nat, samples: seq<seq<int>>, minIdx: nat)

  /** The stream position after the traced call. */
  function EndOf(t: SampleTrace): nat {
    t.start + Consumed(t.samples)
  }

  /** `h` is what get_clean_chains(disk, target) returns along trace `t`: its default
      number of runs, drawn one after another from t.start, each stopping at the
      target, and `h` the histogram of the earliest run with the fewest changes. */
  predicate BestOfRuns(disk: seq<TraceRow>, target: int, rng: nat -> real, t: SampleTrace, h: Histogram)
    requires IsTable(disk)
  {
    && |t.samples| == Runs && t.minIdx < Runs
    && RunsStop(target, t.samples) && RunsFrom(disk, rng, t.start, t.samples)
    && SmallestFirst(Totals(t.samples), t.minIdx)
    && h == HistogramOf(t.samples[t.minIdx])
  }

  /** Dictionary i of `dicts` is what get_clean_chains returned along traces[i], drawing
      from table i mod |inData| toward target i mod |targets|. */
  predicate BestOfEach(inData: seq<seq<TraceRow>>, targets: seq<int>, rng: nat -> real,
                       traces: seq<SampleTrace>, dicts: seq<Histogram>)
    requires forall i :: 0 <= i < |inData| ==> IsTable(inData[i])
  {
    && |traces| == |dicts|
    && (dicts != [] ==> |inData| > 0 && |targets| > 0)
    && forall i {:trigger traces[i], dicts[i]} :: 0 <= i < |dicts| ==>
         BestOfRuns(inData[Cycle(i, |inData|)], targets[Cycle(i, |targets|)], rng, traces[i], dicts[i])
  }

  /** Every recorded dictionary is a sample of its table toward its target. */
  lemma BestOfEachSampled(inData: seq<seq<TraceRow>>, targets: seq<int>, rng: nat -> real,
                          traces: seq<SampleTrace>, dicts: seq<Histogram>)
    requires forall i :: 0 <= i < |inData| ==> IsTable(inData[i])
    requires BestOfEach(inData, targets, rng, traces, dicts)
    ensures forall i :: 0 <= i < |dicts| ==>
      Sampled(inData[Cycle(i, |inData|)], targets[Cycle(i, |targets|)], dicts[i])
  {
    forall i | 0 <= i < |dicts|
      ensures Sampled(inData[Cycle(i, |inData|)], targets[Cycle(i, |targets|)], dicts[i])
    {
      var t, h := traces[i], dicts[i];
      ChosenRunSampled(inData[Cycle(i, |inData|)], rng, t.start, targets[Cycle(i, |targets|)], t.samples, t.minIdx);
    }
  }

  /** The traced calls follow one another in the stream, from `start` up to `next`. */
  predicate Chained(traces: seq<SampleTrace>, start: nat, next: nat)
    decreases |traces|
  {
    if traces == [] then next == start
    else traces[0].start == start && Chained(traces[1..], EndOf(traces[0]), next)
  }

  lemma {:induction false} ChainedSnoc(traces: seq<SampleTrace>, start: nat, t: SampleTrace)
    requires Chained(traces, start, t.start)
    ensures Chained(traces + [t], start, EndOf(t))
    decreases |traces|
  {
    if traces == [] {
      assert [t][1..] == [];
    } else {
      assert (traces + [t])[1..] == traces[1..] + [t];
      ChainedSnoc(traces[1..], EndOf(traces[0]), t);
    }
  }

  lemma {:induction false} ChainedAppend(a: seq<SampleTrace>, b: seq<SampleTrace>, start: nat, mid: nat, next: nat)
    requires Chained(a, start, mid) && Chained(b, mid, next)
    ensures Chained(a + b, start, next)
    decreases |a|
  {
    if a == [] {
      assert a + b == b;
    } else {
      assert (a + b)[1..] == a[1..] + b;
      ChainedAppend(a[1..], b, EndOf(a[0]), mid, next);
    }
  }

  // ---------------------------------------------------------------------------
  // Chain dictionaries held by reference

  /** `h` with `a` more chains of length 1: key 1 is created when absent, its count
      raised by `a` when present, and every other length keeps its count. */
  function WithArtificeOnes(h: Histogram, a: int): (r: Histogram)
    ensures r.Keys == h.Keys + {1}
    ensures Get(r, 1) == Get(h, 1) + a
    ensures forall k :: k != 1 ==> Get(r, k) == Get(h, k)
  {
    h[1 := Get(h, 1) + a]
  }

  /** Planting `a` singletons makes both the number of chains and the number of
      changed blocks grow by exactly `a`; with `a >= 1` a valid histogram stays valid. */
  lemma ArtificeOnesEffect(h: Histogram, a: int)
    ensures TotalCount(WithArtificeOnes(h, a)) == TotalCount(h) + a
    ensures TotalChanges(WithArtificeOnes(h, a)) == TotalChanges(h) + a
    ensures ValidHistogram(h) && a >= 1 ==> ValidHistogram(WithArtificeOnes(h, a))
  {
    MapSumAdd(h, 1, a, false);
    MapSumAdd(h, 1, a, true);
  }

  /** A chain dictionary as the dataset list holds it: one object per sample, updated
      in place. */
  class ChainDict {
    var counts: Histogram

    constructor (h: Histogram)
      ensures counts == h
    {
      counts := h;
    }

    /** add_artifice_ones: add `artificeChanges` chains of length 1 to this dictionary
        in place and return the same dictionary. */
    method AddArtificeOnes(artificeChanges: int) returns (r: ChainDict)
      modifies this
      ensures r == this
      ensures counts == WithArtificeOnes(old(counts), artificeChanges)
    {
      if 1 in counts {
        counts := counts[1 := counts[1] + artificeChanges];
      } else {
        counts := counts[1 := artificeChanges];
      }
      r := this;
    }
  }

  // ---------------------------------------------------------------------------
  // Dataset, feature and metrics

  /** The number of passes of `while i < n` started from 0. */
  function Iterations(n: int): nat {
    if n < 0 then 0 else n
  }

  /** `i % n`: gen_data cycles through its parameter lists by the sample number. */
  function Cycle(i: int, n: int): (r: nat)
    requires i >= 0 && n > 0
    ensures r < n
  {
    i % n
  }

  /** Appending one traced call that follows the earlier ones in the stream, drawn
      from the next table toward the next target, extends both records. */
  lemma RecordSample(inData: seq<seq<TraceRow>>, targets: seq<int>, rng: nat -> real,
                     traces: seq<SampleTrace>, dicts: seq<Histogram>, first: nat, t: SampleTrace, h: Histogram,
                     next: nat)
    requires forall j :: 0 <= j < |inData| ==> IsTable(inData[j])
    requires |inData| > 0 && |targets| > 0
    requires BestOfEach(inData, targets, rng, traces, dicts) && Chained(traces, first, t.start)
    requires next == EndOf(t)
    requires BestOfRuns(inData[Cycle(|dicts|, |inData|)], targets[Cycle(|dicts|, |targets|)], rng, t, h)
    ensures BestOfEach(inData, targets, rng, traces + [t], dicts + [h])
    ensures Chained(traces + [t], first, next)
  {
    ChainedSnoc(traces, first, t);
    assert forall i :: 0 <= i < |dicts| ==> (traces + [t])[i] == traces[i] && (dicts + [h])[i] == dicts[i];
  }

  /** The number of runs get_clean_chains takes per sample (its default). */
  const Runs: int := 10

  /** One clean sample (experiment_utils.py lines 77-78): table i mod |inData|, sampled
      toward `target` into a new dictionary object. The ghost `traces` and `dicts`
      record the samples drawn before this one, from stream position `first` on. */
  method CleanSample(inData: seq<seq<TraceRow>>, i: nat, target: int, rng: nat -> real, start: nat,
                     ghost first: nat, ghost traces: seq<SampleTrace>, ghost dicts: seq<Histogram>)
    returns (dict: ChainDict, next: nat, ghost h: Histogram, ghost trace: SampleTrace)
    requires forall j :: 0 <= j < |inData| ==> IsTable(inData[j])
    requires |inData| > 0 && i == |dicts|
    requires BestOfEach(inData, [target], rng, traces, dicts) && Chained(traces, first, start)
    ensures fresh(dict) && dict.counts == h
    ensures BestOfEach(inData, [target], rng, traces + [trace], dicts + [h])
    ensures Chained(traces + [trace], first, next)
  {
    var disk := inData[Cycle(i, |inData|)];
    var d, nx, samples, minIdx := GetCleanChains(disk, target, Runs, rng, start);
    h, trace := d, SampleTrace(start, samples, minIdx);
    assert [target][Cycle(|dicts|, 1)] == target;
    next := nx;
    RecordSample(inData, [target], rng, traces, dicts, first, trace, h, next);
    dict := new ChainDict(d);
  }

  /** A new dictionary holding `h`, with `artificeChanges` singletons planted in it. */
  method NewPlanted(h: Histogram, artificeChanges: int) returns (dict: ChainDict)
    ensures fresh(dict) && dict.counts == WithArtificeOnes(h, artificeChanges)
  {
    dict := new ChainDict(h);
    dict := dict.AddArtificeOnes(artificeChanges);
  }

  /** One Artifice sample (experiment_utils.py lines 84-86): a clean sample `base` of table
      i mod |inData| toward public change target i mod |publicChanges|, with singleton
      count i mod |artificeSingletons| planted in place. The ghost `traces` and `bases`
      record the samples drawn before this one, from stream position `first` on. */
  method ArtificeSample(inData: seq<seq<TraceRow>>, publicChanges: seq<int>, artificeSingletons: seq<int>,
                        i: nat, rng: nat -> real, start: nat,
                        ghost first: nat, ghost traces: seq<SampleTrace>, ghost bases: seq<Histogram>)
    returns (dict: ChainDict, next: nat, ghost base: Histogram, ghost trace: SampleTrace)
    requires forall j :: 0 <= j < |inData| ==> IsTable(inData[j])
    requires |inData| > 0 && |publicChanges| > 0 && |artificeSingletons| > 0 && i == |bases|
    requires BestOfEach(inData, publicChanges, rng, traces, bases) && Chained(traces, first, start)
    ensures fresh(dict)
    ensures dict.counts == WithArtificeOnes(base, artificeSingletons[Cycle(i, |artificeSingletons|)])
    ensures BestOfEach(inData, publicChanges, rng, traces + [trace], bases + [base])
    ensures Chained(traces + [trace], first, next)
  {
    var disk := inData[Cycle(i, |inData|)];
    var target := publicChanges[Cycle(i, |publicChanges|)];
    var d, nx, samples, minIdx := GetCleanChains(disk, target, Runs, rng, start);
    base, trace := d, SampleTrace(start, samples, minIdx);
    next := nx;
    RecordSample(inData, publicChanges, rng, traces, bases, first, trace, base, next);
    dict := NewPlanted(d, artificeSingletons[Cycle(i, |artificeSingletons|)]);
  }

  /** The first loop of gen_data (experiment_utils.py lines 75-80): `cleanSamples`
      clean samples, sample i drawn from table i mod |inData|, each a new object. */
  method CleanSamples(inData: seq<seq<TraceRow>>, cleanSamples: int, cleanChanges: int,
                      rng: nat -> real, start: nat)
    returns (data: seq<ChainDict>, next: nat, ghost dicts: seq<Histogram>, ghost traces: seq<SampleTrace>)
    requires forall i :: 0 <= i < |inData| ==> IsTable(inData[i])
    requires cleanSamples > 0 ==> |inData| > 0
    ensures |data| == |dicts| == Iterations(cleanSamples)
    ensures forall i :: 0 <= i < |data| ==> fresh(data[i]) && data[i].counts == dicts[i]
    ensures forall i, j :: 0 <= i < j < |data| ==> data[i] != data[j]
    ensures forall i :: 0 <= i < |data| ==> Sampled(inData[Cycle(i, |inData|)], cleanChanges, dicts[i])
    ensures BestOfEach(inData, [cleanChanges], rng, traces, dicts)
    ensures Chained(traces, start, next)
  {
    data, next, dicts, traces := [], start, [], [];
    var i := 0;
    while i < cleanSamples
      invariant 0 <= i <= Iterations(cleanSamples) && |data| == |dicts| == i
      invariant forall j :: 0 <= j < i ==> fresh(data[j])
      invariant forall j :: 0 <= j < i ==> data[j].counts == dicts[j]
      invariant forall j, k :: 0 <= j < k < i ==> data[j] != data[k]
      invariant BestOfEach(inData, [cleanChanges], rng, traces, dicts)
      invariant Chained(traces, start, next)
    {
      var dict, nx, h, trace := CleanSample(inData, i, cleanChanges, rng, next, start, traces, dicts);
      data, next, dicts, traces := data + [dict], nx, dicts + [h], traces + [trace];
      i := i + 1;
    }
    BestOfEachSampled(inData, [cleanChanges], rng, traces, dicts);
  }

  /** The second loop of gen_data (experiment_utils.py lines 82-89): `artificeSamples`
      samples, sample i drawn from table i mod |inData| with public change target
      i mod |publicChanges|, then given singleton count i mod |artificeSingletons|.
      The ghost `bases` are the samples before the singletons were added. */
  method ArtificeSamples(inData: seq<seq<TraceRow>>, artificeSamples: int, publicChanges: seq<int>,
                         artificeSingletons: seq<int>, rng: nat -> real, start: nat)
    returns (data: seq<ChainDict>, next: nat, ghost bases: seq<Histogram>, ghost traces: seq<SampleTrace>)
    requires forall i :: 0 <= i < |inData| ==> IsTable(inData[i])
    requires artificeSamples > 0 ==> |inData| > 0 && |publicChanges| > 0 && |artificeSingletons| > 0
    ensures |data| == |bases| == Iterations(artificeSamples)
    ensures forall i :: 0 <= i < |data| ==> fresh(data[i])
    ensures forall i, j :: 0 <= i < j < |data| ==> data[i] != data[j]
    ensures forall i :: 0 <= i < |data| ==>
      && Sampled(inData[Cycle(i, |inData|)], publicChanges[Cycle(i, |publicChanges|)], bases[i])
      && data[i].counts == WithArtificeOnes(bases[i], artificeSingletons[Cycle(i, |artificeSingletons|)])
    ensures BestOfEach(inData, publicChanges, rng, traces, bases)
    ensures Chained(traces, start, next)
  {
    data, next, bases, traces := [], start, [], [];
    ghost var planted: seq<Histogram> := [];
    var i := 0;
    while i < artificeSamples
      invariant 0 <= i <= Iterations(artificeSamples) && |data| == |bases| == |planted| == i
      invariant forall j :: 0 <= j < i ==> fresh(data[j]) && data[j].counts == planted[j]
      invariant forall j, k :: 0 <= j < k < i ==> data[j] != data[k]
      invariant forall j :: 0 <= j < i ==>
        planted[j] == WithArtificeOnes(bases[j], artificeSingletons[Cycle(j, |artificeSingletons|)])
      invariant BestOfEach(inData, publicChanges, rng, traces, bases)
      invariant Chained(traces, start, next)
    {
      var dict, nx, base, trace := ArtificeSample(inData, publicChanges, artificeSingletons, i, rng, next,
                                                  start, traces, bases);
      planted := planted + [dict.counts];
      data, next, bases, traces := data + [dict], nx, bases + [base], traces + [trace];
      i := i + 1;
    }
    BestOfEachSampled(inData, publicChanges, rng, traces, bases);
  }

  /** gen_data: the clean samples labelled 0 followed by the Artifice samples labelled 1,
      every sample its own dictionary object. */
  method GenData(inData: seq<seq<TraceRow>>, cleanSamples: int, cleanChanges: int,
                 artificeSamples: int, publicChanges: seq<int>, artificeSingletons: seq<int>,
                 rng: nat -> real, start: nat)
    returns (data: seq<ChainDict>, truth: seq<int>, next: nat,
             ghost cleanDicts: seq<Histogram>, ghost bases: seq<Histogram>,
             ghost cleanTraces: seq<SampleTrace>, ghost plantedTraces: seq<SampleTrace>)
    requires forall i :: 0 <= i < |inData| ==> IsTable(inData[i])
    requires cleanSamples > 0 || artificeSamples > 0 ==> |inData| > 0
    requires artificeSamples > 0 ==> |publicChanges| > 0 && |artificeSingletons| > 0
    ensures |data| == |truth| == Iterations(cleanSamples) + Iterations(artificeSamples)
    ensures forall i :: 0 <= i < |truth| ==> truth[i] == (if i < Iterations(cleanSamples) then 0 else 1)
    ensures forall i, j :: 0 <= i < j < |data| ==> data[i] != data[j]
    ensures |cleanDicts| == Iterations(cleanSamples) && |bases| == Iterations(artificeSamples)
    ensures forall i :: 0 <= i < Iterations(cleanSamples) ==>
      data[i].counts == cleanDicts[i] && Sampled(inData[Cycle(i, |inData|)], cleanChanges, cleanDicts[i])
    ensures forall i :: 0 <= i < Iterations(artificeSamples) ==>
      && Sampled(inData[Cycle(i, |inData|)], publicChanges[Cycle(i, |publicChanges|)], bases[i])
      && data[Iterations(cleanSamples) + i].counts
         == WithArtificeOnes(bases[i], artificeSingletons[Cycle(i, |artificeSingletons|)])
    ensures BestOfEach(inData, [cleanChanges], rng, cleanTraces, cleanDicts)
    ensures BestOfEach(inData, publicChanges, rng, plantedTraces, bases)
    ensures Chained(cleanTraces + plantedTraces, start, next)
  {
    var clean, nx;
    clean, nx, cleanDicts, cleanTraces := CleanSamples(inData, cleanSamples, cleanChanges, rng, start);
    var planted;
    planted, next, bases, plantedTraces := ArtificeSamples(inData, artificeSamples, publicChanges, artificeSingletons, rng, nx);
    ChainedAppend(cleanTraces, plantedTraces, start, nx, next);
    data := clean + planted;
    truth := seq(|clean|, _ => 0) + seq(|planted|, _ => 1);
    assert forall i :: 0 <= i < |clean| ==> data[i] == clean[i];
    assert forall i :: 0 <= i < |planted| ==> data[|clean| + i] == planted[i];
    forall i, j | 0 <= i < j < |data|
      ensures data[i] != data[j]
    {
      if i < |clean| <= j {
        assert data[j] == planted[j - |clean|];
      }
    }
  }

  /** The singleton fraction of a histogram: chains of length 1 over all chains. */
  function SingletonFraction(h: Histogram): real
    requires TotalCount(h) != 0
  {
    Ratio(Get(h, 1), TotalCount(h))
  }

  /** With no negative count the singleton fraction lies in [0, 1]. For a valid
      histogram it is 0 exactly when there are no singletons and 1 exactly when
      every chain is a singleton. */
  lemma SingletonFractionBounds(h: Histogram)
    requires TotalCount(h) != 0 && forall k :: k in h ==> h[k] >= 0
    ensures 0.0 <= SingletonFraction(h) <= 1.0
    ensures 1 !in h ==> SingletonFraction(h) == 0.0
    ensures ValidHistogram(h) ==> (SingletonFraction(h) == 0.0 <==> 1 !in h)
    ensures ValidHistogram(h) ==> (SingletonFraction(h) == 1.0 <==> h.Keys == {1})
  {
    CountAtMostTotal(h, 1);
    RatioUnit(Get(h, 1), TotalCount(h));
    RatioZero(TotalCount(h));
    if ValidHistogram(h) {
      ShareBounds(h, 1);
    }
  }

  /** construct_features: the singleton fraction of each sample, in dataset order. */
  method ConstructFeatures(data: seq<ChainDict>) returns (features: array<real>)
    requires forall i :: 0 <= i < |data| ==> TotalCount(data[i].counts) != 0
    ensures fresh(features) && features.Length == |data|
    ensures forall i :: 0 <= i < |data| ==> features[i] == SingletonFraction(data[i].counts)
  {
    features := new real[|data|](_ => 0.0);
    for i := 0 to |data|
      invariant forall j :: 0 <= j < i ==> features[j] == SingletonFraction(data[j].counts)
    {
      var total := TotalCount(data[i].counts);
      var singletons := if 1 in data[i].counts then data[i].counts[1] else 0;
      features[i] := Ratio(singletons, total);
    }
  }

  /** One line of detector results: `[ind, acc, ppv, recall, fpr, fnr]`. */
  datatype MetricsRow = MetricsRow(ind: int, acc: real, ppv: real, recall: real, fpr: real, fnr: real)

  /** metrics, from the confusion counts: accuracy, precision (0 when nothing was
      flagged), recall and the false positive and false negative rates. */
  function Metrics(ind: int, tn: nat, fp: nat, fn: nat, tp: nat): (m: MetricsRow)
    requires tn + fp > 0 && fn + tp > 0
    ensures m.ind == ind
    ensures 0.0 <= m.acc <= 1.0 && 0.0 <= m.ppv <= 1.0 && 0.0 <= m.recall <= 1.0
    ensures 0.0 <= m.fpr <= 1.0 && 0.0 <= m.fnr <= 1.0
    ensures m.acc == 1.0 <==> fp == 0 && fn == 0
    ensures tp + fp == 0 ==> m.ppv == 0.0
    ensures m.recall + m.fnr == 1.0
    ensures m.recall == 1.0 <==> fn == 0
    ensures m.fpr == 0.0 <==> fp == 0
  {
    var total := tn + fp + fn + tp;
    RatioUnit(tp + tn, total);
    RatioOne(tp + tn, total);
    RatioUnit(fp, tn + fp);
    RatioZeroIff(fp, tn + fp);
    RatioUnit(fn, fn + tp);
    RatioUnit(tp, tp + fn);
    RatioAdd(tp, fn, tp + fn);
    RatioWhole(tp + fn);
    RatioOne(tp, tp + fn);
    var ppv := if tp + fp != 0 then RatioUnit(tp, tp + fp); Ratio(tp, tp + fp) else 0.0;
    MetricsRow(ind, Ratio(tp + tn, total), ppv, Ratio(tp, tp + fn), Ratio(fp, tn + fp), Ratio(fn, fn + tp))
  }
}
