/**
 Models the pass^k and pass@k curves of rateSummary (eval/reporter/reporter.go): for each k up to
 the smallest trial count of any task, the mean of the tasks' estimates.
 */
module PassCurves {
  import opened TrialPolicy
  import opened Comparison
  import P = PassAtK

  function CountsFor(tasks: seq<Task>, requireHealthy: bool, first: bool): (counts: seq<Counts>)
    ensures |counts| == |tasks| && forall i | 0 <= i < |tasks| ::
              counts[i] == StatCounts(tasks[i], requireHealthy, first)
  {
    seq(|tasks|, i requires 0 <= i < |tasks| => StatCounts(tasks[i], requireHealthy, first))
  }

  /** Every task ran at least k trials. */
  predicate AllReach(counts: seq<Counts>, k: nat) { forall c | c in counts :: k <= Total(c) }

  ghost predicate IsSmallest(m: nat, counts: seq<Counts>) {
    AllReach(counts, m) && exists c :: c in counts && Total(c) == m
  }

  function Hat(c: Counts, k: nat): real
    requires k <= Total(c)
  {
    P.Ratio(c.pass, Total(c), k)
  }

  function At(c: Counts, k: nat): real
    requires k <= Total(c)
  {
    1.0 - P.Ratio(Total(c) - c.pass, Total(c), k)
  }

  function SumHat(counts: seq<Counts>, k: nat): real
    requires AllReach(counts, k)
  {
    if counts == [] then 0.0 else SumHat(counts[..|counts| - 1], k) + Hat(counts[|counts| - 1], k)
  }

  function SumAt(counts: seq<Counts>, k: nat): real
    requires AllReach(counts, k)
  {
    if counts == [] then 0.0 else SumAt(counts[..|counts| - 1], k) + At(counts[|counts| - 1], k)
  }

  function SumRate(counts: seq<Counts>): real {
    if counts == [] then 0.0 else SumRate(counts[..|counts| - 1]) + PassFraction(counts[|counts| - 1])
  }

  function Plus(a: P.Number, b: P.Number): P.Number { if a.NaN? || b.NaN? then P.NaN else P.Value(a.x + b.x) }

  lemma StatTotal(t: Task, requireHealthy: bool, first: bool)
    ensures Total(StatCounts(t, requireHealthy, first)) >= 1
  {
    TallyTotal(TrialsOf(t.result), requireHealthy);
    hide Tally;
  }

  /** The loop over the tasks: their counts, and the smallest trial count. */
  method Gather(tasks: seq<Task>, requireHealthy: bool, first: bool) returns (counts: seq<Counts>, minTrials: nat)
    ensures counts == CountsFor(tasks, requireHealthy, first) && AllReach(counts, 1)
    ensures tasks != [] ==> IsSmallest(minTrials, counts)
  {
    hide Tally, TrialsOf, FirstTrialGateCounts;
    counts, minTrials := [], 0;
    for i := 0 to |tasks|
      invariant counts == CountsFor(tasks[..i], requireHealthy, first) && AllReach(counts, 1)
      invariant if i == 0 then minTrials == 0 else minTrials > 0 && IsSmallest(minTrials, counts)
    {
      StatTotal(tasks[i], requireHealthy, first);
      var c := GateCounts(tasks[i].result, requireHealthy);
      if first {
        c := FirstTrialGateCounts(tasks[i].result, requireHealthy);
      }
      ghost var was := counts;
      counts := counts + [c];
      assert forall x :: x in counts <==> x in was || x == c;
      if minTrials == 0 || Total(c) < minTrials {
        minTrials := Total(c);
      }
      assert tasks[..i + 1] == tasks[..i] + [tasks[i]];
    }
    assert tasks[..|tasks|] == tasks;
  }

  /** The inner loop: the sums of both estimates for one k. */
  method SumEstimates(counts: seq<Counts>, k: nat) returns (hat: P.Number, at: P.Number)
    requires AllReach(counts, k)
    ensures hat == P.Value(SumHat(counts, k)) && at == P.Value(SumAt(counts, k))
  {
    hat, at := P.Value(0.0), P.Value(0.0);
    for i := 0 to |counts|
      invariant AllReach(counts[..i], k)
      invariant hat == P.Value(SumHat(counts[..i], k)) && at == P.Value(SumAt(counts[..i], k))
    {
      var c := counts[i];
      assert c in counts && counts[..i + 1][..i] == counts[..i];
      var h := P.PassHatK(c.pass, Total(c), k);
      var a := P.PassAtK(c.pass, Total(c), k);
      hat, at := Plus(hat, h), Plus(at, a);
    }
    assert counts[..|counts|] == counts;
  }

  function MeanHat(counts: seq<Counts>, k: nat): real
    requires counts != [] && AllReach(counts, k)
  {
    SumHat(counts, k) / |counts| as real
  }

  function MeanAt(counts: seq<Counts>, k: nat): real
    requires counts != [] && AllReach(counts, k)
  {
    SumAt(counts, k) / |counts| as real
  }

  function MeanRate(counts: seq<Counts>): real
    requires counts != []
  {
    SumRate(counts) / |counts| as real
  }

  /** hats and ats hold the means for k = 1, 2, ... */
  ghost predicate AreMeans(hats: seq<P.Number>, ats: seq<P.Number>, counts: seq<Counts>)
    requires counts != []
  {
    && |hats| == |ats| && AllReach(counts, |hats|)
    && forall i | 0 <= i < |hats| ::
         hats[i] == P.Value(MeanHat(counts, i + 1)) && ats[i] == P.Value(MeanAt(counts, i + 1))
  }

  /** The curves of rateSummary. No entry is ever NaN, and both stop at the smallest trial count. */
  method Curves(tasks: seq<Task>, requireHealthy: bool, first: bool) returns (hats: seq<P.Number>, ats: seq<P.Number>)
    ensures tasks == [] ==> hats == [] && ats == []
    ensures var counts := CountsFor(tasks, requireHealthy, first);
            tasks != [] ==> AreMeans(hats, ats, counts) && IsSmallest(|hats|, counts)
  {
    hats, ats := [], [];
    if |tasks| == 0 {
      return;
    }
    var counts, minTrials := Gather(tasks, requireHealthy, first);
    hide *;
    NoMeans(counts);
    for k := 0 to minTrials
      invariant |hats| == |ats| == k && AreMeans(hats, ats, counts)
    {
      SmallestReaches(counts, minTrials, k + 1);
      var hat, at := SumEstimates(counts, k + 1);
      MeansOfOneMore(hats, ats, counts);
      hats := hats + [P.Value(hat.x / |counts| as real)];
      ats := ats + [P.Value(at.x / |counts| as real)];
    }
  }

  lemma NoMeans(counts: seq<Counts>)
    requires counts != []
    ensures AreMeans([], [], counts)
  {}

  lemma SmallestReaches(counts: seq<Counts>, m: nat, k: nat)
    requires IsSmallest(m, counts) && k <= m
    ensures AllReach(counts, k)
  {}

  lemma MeansOfOneMore(hats: seq<P.Number>, ats: seq<P.Number>, counts: seq<Counts>)
    requires counts != [] && AreMeans(hats, ats, counts) && AllReach(counts, |hats| + 1)
    ensures var k := |hats| + 1;
            AreMeans(hats + [P.Value(SumHat(counts, k) / |counts| as real)],
                ats + [P.Value(SumAt(counts, k) / |counts| as real)], counts)
  {
    hide SumHat, SumAt;
  }

  lemma OneTask(c: Counts, j: nat, k: nat)
    requires 1 <= j <= k <= Total(c)
    ensures 0.0 <= Hat(c, k) <= Hat(c, j) <= PassFraction(c) <= At(c, j) <= At(c, k) <= 1.0
    ensures Hat(c, 1) == PassFraction(c) == At(c, 1)
  {
    hide P.Ratio;
    P.EstimatesBracketPassRate(c.pass, Total(c), j);
    P.EstimatesBracketPassRate(c.pass, Total(c), k);
    P.EstimatesAreMonotone(c.pass, Total(c), j, k);
    P.RatioOfOne(c.pass, Total(c));
    P.RatioOfOne(Total(c) - c.pass, Total(c));
    P.Complement(c.pass as real, Total(c) as real);
  }

  lemma {:induction false} SumsBracket(counts: seq<Counts>, j: nat, k: nat)
    requires 1 <= j <= k && AllReach(counts, j) && AllReach(counts, k)
    ensures 0.0 <= SumHat(counts, k) <= SumHat(counts, j) <= SumRate(counts)
    ensures SumRate(counts) <= SumAt(counts, j) <= SumAt(counts, k) <= |counts| as real
  {
    if counts != [] {
      hide Hat, At, PassFraction;
      SumsBracket(counts[..|counts| - 1], j, k);
      assert counts[|counts| - 1] in counts;
      OneTask(counts[|counts| - 1], j, k);
    }
  }

  lemma {:induction false} SumsOfOne(counts: seq<Counts>)
    requires AllReach(counts, 1)
    ensures SumHat(counts, 1) == SumRate(counts) == SumAt(counts, 1)
  {
    if counts != [] {
      hide Hat, At, PassFraction;
      SumsOfOne(counts[..|counts| - 1]);
      assert counts[|counts| - 1] in counts;
      OneTask(counts[|counts| - 1], 1, 1);
    }
  }

  /**
   Both curves start at the mean pass fraction; the pass^k curve never rises from there, the pass@k
   curve never falls, and both stay within [0, 1].
   */
  lemma {:induction false} CurvesBracketRate(counts: seq<Counts>, j: nat, k: nat)
    requires counts != [] && 1 <= j <= k && AllReach(counts, j) && AllReach(counts, k) && AllReach(counts, 1)
    ensures 0.0 <= MeanHat(counts, k) <= MeanHat(counts, j) <= MeanRate(counts)
    ensures MeanRate(counts) <= MeanAt(counts, j) <= MeanAt(counts, k) <= 1.0
    ensures MeanHat(counts, 1) == MeanRate(counts) == MeanAt(counts, 1)
  {
    hide SumHat, SumAt, SumRate;
    SumsBracket(counts, j, k);
    SumsOfOne(counts);
    var n := |counts| as real;
    MeanIsMonotone(0.0, SumHat(counts, k), n);
    MeanIsMonotone(SumHat(counts, k), SumHat(counts, j), n);
    MeanIsMonotone(SumHat(counts, j), SumRate(counts), n);
    MeanIsMonotone(SumRate(counts), SumAt(counts, j), n);
    MeanIsMonotone(SumAt(counts, j), SumAt(counts, k), n);
    MeanIsMonotone(SumAt(counts, k), n, n);
  }

  /** Over all trials that common start is the pass rate the comparison reports. */
  lemma {:induction false} CurvesStartAtPassRate(suite: Suite)
    requires suite.tasks != []
    ensures MeanRate(CountsFor(suite.tasks, suite.requireHealthy, false)) == MeanFraction(suite)
  {
    RatesSum(suite.tasks, suite.requireHealthy);
  }

  lemma {:induction false} RatesSum(tasks: seq<Task>, requireHealthy: bool)
    ensures SumRate(CountsFor(tasks, requireHealthy, false)) == SumOfFractions(tasks, requireHealthy)
  {
    if tasks != [] {
      hide Tally, TrialsOf, PassFraction;
      var counts := CountsFor(tasks, requireHealthy, false);
      RatesSum(tasks[..|tasks| - 1], requireHealthy);
      assert counts[..|counts| - 1] == CountsFor(tasks[..|tasks| - 1], requireHealthy, false);
    }
  }
}
