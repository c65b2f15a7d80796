/**
 What the comparison of eval/reporter/reporter.go promises: the tasks are partitioned, a pass gate
 is clean, and the two sides can be swapped.
 */
module ComparisonLaws {
  import opened TrialPolicy
  import opened SortedStrings
  import opened Comparison

  /** The report's lists, with everything that makes them left folded. */
  lemma ReportParts(baseline: Suite, current: Suite, opts: Options, stats: seq<real> -> Statistics)
    ensures var r := ReportOf(baseline, current, opts, stats);
            var rows, s := Rows(baseline, current), SettingOf(baseline, current, opts);
            && r.tasks == Pairs(rows, s) && r.diffs == Diffs(rows, s) && r.flips == Flips(rows, s)
            && r.regressions == Regressions(rows, s) && r.improvements == Improvements(rows, s)
            && r.baselineOnly == SortCompact(AbsentFrom(baseline.tasks, Index(current.tasks)))
            && r.currentOnly == SortCompact(AbsentFrom(current.tasks, Index(baseline.tasks)))
            && r.passRateDelta == MeanFraction(current) - MeanFraction(baseline)
            && r.gate == DecideGate(|rows|, stats(r.diffs), r.flips, r.regressions, r.baselineOnly,
                   opts.warnMargin).gate
  {
    hide Rows, Pairs, Regressions, Improvements, Flips, Diffs, DecideGate, MeanFraction, SettingOf, SortCompact,
        AbsentFrom, Index;
  }

  // ---- Pairing ----

  function PairIds(pairs: seq<Pair>): (ids: set<string>) { set p | p in pairs :: p.id }

  predicate DistinctPairs(pairs: seq<Pair>) { forall i, j | 0 <= i < j < |pairs| :: pairs[i].id != pairs[j].id }

  /** The pairs and the one-sided list split the side's IDs. */
  ghost predicate Partitions(pairs: seq<Pair>, only: seq<string>, tasks: seq<Task>) {
    && StrictlySorted(only)
    && (forall x :: x in Ids(tasks) <==> x in PairIds(pairs) || x in only)
    && (forall x :: !(x in PairIds(pairs) && x in only))
  }

  lemma RowPairId(s: Setting)
    ensures forall row :: PairOf(row, s).id == row.c.id
  {}

  lemma {:induction false} RowIds(baseline: Suite, current: Suite, s: Setting)
    ensures PairIds(Pairs(Rows(baseline, current), s)) == Ids(baseline.tasks) * Ids(current.tasks)
  {
    hide Index, PairOf, Tally, TrialsOf;
    RowPairId(s);
    var rows := Rows(baseline, current);
    var index := Index(baseline.tasks);
    forall x | x in Ids(baseline.tasks) * Ids(current.tasks) ensures x in PairIds(Pairs(rows, s)) {
      var t :| t in current.tasks && t.id == x;
      var row := Row(index[x], t);
      assert row in rows;
      var i :| 0 <= i < |rows| && rows[i] == row;
      assert Pairs(rows, s)[i].id == x;
    }
    forall x | x in PairIds(Pairs(rows, s)) ensures x in Ids(baseline.tasks) * Ids(current.tasks) {
      var i :| 0 <= i < |rows| && Pairs(rows, s)[i].id == x;
      assert rows[i] in rows;
    }
  }

  /** Pairs with BaselineOnly, and pairs with CurrentOnly, partition the two sides, whatever the suites. */
  lemma {:induction false} TasksArePartitioned(baseline: Suite, current: Suite, opts: Options,
      stats: seq<real> -> Statistics)
    ensures var r := ReportOf(baseline, current, opts, stats);
            Partitions(r.tasks, r.baselineOnly, baseline.tasks) && Partitions(r.tasks, r.currentOnly, current.tasks)
  {
    hide *;
    ReportParts(baseline, current, opts, stats);
    RowIds(baseline, current, SettingOf(baseline, current, opts));
    var pairs := ReportOf(baseline, current, opts, stats).tasks;
    OneSide(baseline.tasks, current.tasks, pairs);
    OneSide(current.tasks, baseline.tasks, pairs);
  }

  lemma {:induction false} OneSide(tasks: seq<Task>, other: seq<Task>, pairs: seq<Pair>)
    requires PairIds(pairs) == Ids(tasks) * Ids(other)
    ensures Partitions(pairs, SortCompact(AbsentFrom(tasks, Index(other))), tasks)
  {
    hide PairIds, Ids, StrictlySorted, SortCompact, AbsentFrom, Index;
    SortCompactSorts(AbsentFrom(tasks, Index(other)));
    IndexIds(other);
  }

  lemma IndexIds(tasks: seq<Task>)
    ensures Index(tasks).Keys == Ids(tasks)
  {}

  lemma {:induction false} RowsAreDistinct(index: map<string, Task>, tasks: seq<Task>)
    requires DistinctIds(tasks)
    ensures DistinctRows(Joined(index, tasks))
  {
    if tasks != [] {
      var front, last := tasks[..|tasks| - 1], tasks[|tasks| - 1];
      RowsAreDistinct(index, front);
      var rows := Joined(index, front);
      forall i | 0 <= i < |rows| ensures rows[i].c.id != last.id {
        assert rows[i] in rows;
        var j :| 0 <= j < |front| && front[j] == rows[i].c;
        assert tasks[j].id != last.id;
      }
    }
  }

  predicate DistinctRows(rows: seq<Row>) { forall i, j | 0 <= i < j < |rows| :: rows[i].c.id != rows[j].c.id }

  /** With distinct current IDs no pair is repeated, so the partition is one of tasks and not just of IDs. */
  lemma {:induction false} PairsAreDistinct(baseline: Suite, current: Suite, opts: Options,
      stats: seq<real> -> Statistics)
    requires DistinctIds(current.tasks)
    ensures DistinctPairs(ReportOf(baseline, current, opts, stats).tasks)
  {
    hide ReportOf, Joined, DistinctIds, Index;
    RowsAreDistinct(Index(baseline.tasks), current.tasks);
    ReportParts(baseline, current, opts, stats);
  }

  lemma {:induction false} IndexOfDistinct(tasks: seq<Task>, t: Task)
    requires DistinctIds(tasks) && t in tasks
    ensures Index(tasks)[t.id] == t
  {
    var u := Index(tasks)[t.id];
    var i :| 0 <= i < |tasks| && tasks[i] == t;
    var j :| 0 <= j < |tasks| && tasks[j] == u;
    assert i == j;
  }

  /** With distinct IDs on both sides the rows are exactly the pairs of tasks that share an ID. */
  lemma {:induction false} RowsAreMatches(baseline: Suite, current: Suite, row: Row)
    requires DistinctIds(baseline.tasks)
    ensures row in Rows(baseline, current) <==>
              row.b in baseline.tasks && row.c in current.tasks && row.b.id == row.c.id
  {
    if row.b in baseline.tasks && row.b.id == row.c.id {
      IndexOfDistinct(baseline.tasks, row.b);
    }
  }

  // ---- Signs ----

  lemma FractionOrder(a: Counts, b: Counts)
    requires Total(a) > 0 && Total(b) > 0
    ensures PassFraction(a) < PassFraction(b) <==> a.pass * Total(b) < b.pass * Total(a)
  {
    QuotientOrder(a.pass as real, Total(a) as real, b.pass as real, Total(b) as real);
  }

  lemma QuotientOrder(p: real, m: real, q: real, n: real)
    requires m > 0.0 && n > 0.0
    ensures p / m < q / n <==> p * n < q * m
  {
    var x, y := p / m, q / n;
    assert p == x * m && q == y * n;
    assert p * n == x * (m * n) && q * m == y * (m * n);
    ProductOrder(x, y, m * n);
  }

  lemma ProductOrder(x: real, y: real, k: real)
    requires k > 0.0
    ensures x < y <==> x * k < y * k
  {}

  /**
   A positive delta or difference means that the current side passes more often, a negative one
   that it passes less often, counted in trials; turns are compared the same way round.
   */
  lemma SignsMeanProgress(row: Row, s: Setting)
    ensures var b, c := BaselineCounts(row, s), CurrentCounts(row, s);
            && (PairOf(row, s).delta > 0.0 <==> b.pass * Total(c) < c.pass * Total(b))
            && (PairOf(row, s).delta < 0.0 <==> c.pass * Total(b) < b.pass * Total(c))
    ensures var b := StatCounts(row.b, s.baselineHealthy, s.firstTrialOnly);
            var c := StatCounts(row.c, s.currentHealthy, s.firstTrialOnly);
            && (DiffOf(row, s) > 0.0 <==> b.pass * Total(c) < c.pass * Total(b))
            && (DiffOf(row, s) < 0.0 <==> c.pass * Total(b) < b.pass * Total(c))
    ensures row.b.turns.Turns? && row.c.turns.Turns? ==>
              (ChangeOf(row, s).turnsDelta > 0 <==> row.b.turns.n < row.c.turns.n)
  {
    StatIsTrials(row.b, s.baselineHealthy, s.firstTrialOnly);
    StatIsTrials(row.c, s.currentHealthy, s.firstTrialOnly);
    hide Tally, TrialsOf, FirstTrialGateCounts, Total, PassFraction;
    FractionOrder(BaselineCounts(row, s), CurrentCounts(row, s));
    FractionOrder(CurrentCounts(row, s), BaselineCounts(row, s));
    var b, c := StatCounts(row.b, s.baselineHealthy, s.firstTrialOnly),
        StatCounts(row.c, s.currentHealthy, s.firstTrialOnly);
    FractionOrder(b, c);
    FractionOrder(c, b);
  }

  /** The counts a comparison uses are never empty; first-trial counts are those of the first trial alone. */
  lemma StatIsTrials(t: Task, requireHealthy: bool, first: bool)
    ensures Total(StatCounts(t, requireHealthy, first)) > 0 && Total(CountsOf(t, requireHealthy)) > 0
    ensures StatCounts(t, requireHealthy, first) ==
              Tally(if first then TrialsOf(t.result)[..1] else TrialsOf(t.result), requireHealthy)
  {
    var trials := TrialsOf(t.result);
    assert trials[..1] == [trials[0]];
    OneTrial(trials[0], requireHealthy);
    TallyTotal(trials, requireHealthy);
    TallyTotal(trials[..1], requireHealthy);
    hide Tally, TrialsOf;
  }

  // ---- Flips and the gate ----

  lemma NoPassIsZero(c: Counts)
    requires NonePassed(c)
    ensures PassFraction(c) == 0.0
  {}

  lemma AllPassIsOne(c: Counts)
    requires AllPassed(c)
    ensures PassFraction(c) == 1.0
  {}

  /** A flip, in terms of the trials themselves. */
  lemma FlipMeaning(row: Row, s: Setting)
    ensures Flipped(row, s) <==>
              AllPass(TrialsOf(row.b.result), s.baselineHealthy)
              && !SomePasses(TrialsOf(row.c.result), s.currentHealthy)
  {
    hide Tally, TrialsOf, AllPass, SomePasses;
    TallyPasses(TrialsOf(row.b.result), s.baselineHealthy);
    TallyPasses(TrialsOf(row.c.result), s.currentHealthy);
    TallyTotal(TrialsOf(row.b.result), s.baselineHealthy);
    TallyTotal(TrialsOf(row.c.result), s.currentHealthy);
  }

  /** A listed regression, in terms of the trials: all passed before, and no more than the threshold does now. */
  lemma RegressionMeaning(row: Row, s: Setting)
    ensures Dropped(row, s) <==>
              && AllPass(TrialsOf(row.b.result), s.baselineHealthy)
              && |Those(TrialsOf(row.c.result), Pass, s.currentHealthy)| as real / |TrialsOf(row.c.result)| as real
                 <= s.threshold + 0.000000001
  {
    hide Tally, TrialsOf, AllPass, SomePasses, Those;
    TallyPasses(TrialsOf(row.b.result), s.baselineHealthy);
    TallyTotal(TrialsOf(row.b.result), s.baselineHealthy);
    TallyTotal(TrialsOf(row.c.result), s.currentHealthy);
    TallyCounts(TrialsOf(row.c.result), s.currentHealthy);
  }

  /** Statistics fall back to first trials exactly when one side, and only one, ran confirm-on-fail. */
  lemma FirstTrialOnlyMeaning(baseline: Suite, current: Suite)
    ensures FirstTrialOnly(baseline, current) <==> baseline.policy.ConfirmOnFail? != current.policy.ConfirmOnFail?
  {}

  /** Both ends of the margin are legal, of the threshold only the lower. */
  lemma OptionBounds()
    ensures ValidOptions(Options(0.0, 0.0)) && ValidOptions(Options(1.0, 0.5)) && !ValidOptions(Options(0.1, 1.0))
    ensures forall x :: x < 0.0 || x > 1.0 ==> !ValidOptions(Options(x, 0.5))
    ensures forall x :: x < 0.0 || x >= 1.0 <==> !ValidOptions(Options(0.1, x))
  {}

  lemma FlipIsDrop(row: Row, s: Setting)
    requires Flipped(row, s) && s.threshold + EPSILON >= 0.0
    ensures Dropped(row, s) && ChangeOf(row, s).currentFraction == 0.0 && ChangeOf(row, s).baselineFraction == 1.0
  {
    hide PassFraction, CountsOf;
    NoPassIsZero(CurrentCounts(row, s));
    AllPassIsOne(BaselineCounts(row, s));
  }

  /** Under valid options every deterministic flip is a listed regression, from a fraction of 1 to 0. */
  lemma {:induction false} FlipsAreRegressions(baseline: Suite, current: Suite, opts: Options,
      stats: seq<real> -> Statistics)
    requires ValidOptions(opts)
    ensures var r := ReportOf(baseline, current, opts, stats);
            forall id <- r.flips :: exists x ::
              x in r.regressions && x.id == id && x.baselineFraction == 1.0 && x.currentFraction == 0.0
  {
    var r := ReportOf(baseline, current, opts, stats);
    var s, rows := SettingOf(baseline, current, opts), Rows(baseline, current);
    forall id | id in r.flips
        ensures exists x :: x in r.regressions && x.id == id && x.baselineFraction == 1.0 && x.currentFraction == 0.0 {
      hide ReportOf, Flipped, Dropped, PassFraction, CountsOf, Flips, Regressions, Rows;
      ReportParts(baseline, current, opts, stats);
      var row :| row in rows && Flipped(row, s) && id == row.c.id;
      FlipIsDrop(row, s);
      assert ChangeOf(row, s) in r.regressions;
    }
  }

  /**
   A pass gate is clean: no flip, no listed regression, no missing task. So, with distinct IDs,
   every baseline task has its current one, and if all its trials passed then one of the current
   trials does, and more than the flip threshold of them.
   */
  lemma {:induction false} PassGateIsClean(baseline: Suite, current: Suite, opts: Options,
      stats: seq<real> -> Statistics)
    requires ReportOf(baseline, current, opts, stats).gate == GatePass
    ensures var r := ReportOf(baseline, current, opts, stats);
            r.flips == [] && r.regressions == [] && r.baselineOnly == []
    ensures Ids(baseline.tasks) <= Ids(current.tasks)
    ensures DistinctIds(baseline.tasks) ==> forall b, c | b in baseline.tasks && c in current.tasks && b.id == c.id ::
              AllPass(TrialsOf(b.result), baseline.requireHealthy) ==>
              SomePasses(TrialsOf(c.result), current.requireHealthy)
              && PassFraction(CountsOf(c, current.requireHealthy)) > opts.flipThreshold + EPSILON
  {
    hide *;
    var r := ReportOf(baseline, current, opts, stats);
    var s, rows := SettingOf(baseline, current, opts), Rows(baseline, current);
    ReportParts(baseline, current, opts, stats);
    GateMeaning(|rows|, stats(r.diffs), r.flips, r.regressions, r.baselineOnly, opts.warnMargin);
    TasksArePartitioned(baseline, current, opts, stats);
    NoneMissing(baseline, current, r, s);
    if DistinctIds(baseline.tasks) {
      forall b, c | b in baseline.tasks && c in current.tasks && b.id == c.id
          && AllPass(TrialsOf(b.result), baseline.requireHealthy)
        ensures SomePasses(TrialsOf(c.result), current.requireHealthy)
             && PassFraction(CountsOf(c, current.requireHealthy)) > opts.flipThreshold + EPSILON
      {
        RowsAreMatches(baseline, current, Row(b, c));
        SettingIs(baseline, current, opts);
        CleanRow(rows, s, Row(b, c));
      }
    }
  }

  lemma SettingIs(baseline: Suite, current: Suite, opts: Options)
    ensures var s := SettingOf(baseline, current, opts);
            s.baselineHealthy == baseline.requireHealthy && s.currentHealthy == current.requireHealthy
            && s.threshold == opts.flipThreshold
  {}

  lemma NoneMissing(baseline: Suite, current: Suite, r: Report, s: Setting)
    requires r.tasks == Pairs(Rows(baseline, current), s) && r.baselineOnly == []
             && Partitions(r.tasks, r.baselineOnly, baseline.tasks)
    ensures Ids(baseline.tasks) <= Ids(current.tasks)
  {
    hide Rows, Pairs, Ids, PairIds;
    RowIds(baseline, current, s);
    assert forall x | x in Ids(baseline.tasks) :: x in PairIds(r.tasks);
  }

  lemma CleanRow(rows: seq<Row>, s: Setting, row: Row)
    requires row in rows && Flips(rows, s) == [] && Regressions(rows, s) == []
    requires AllPass(TrialsOf(row.b.result), s.baselineHealthy)
    ensures SomePasses(TrialsOf(row.c.result), s.currentHealthy)
    ensures PassFraction(CountsOf(row.c, s.currentHealthy)) > s.threshold + EPSILON
  {
    hide Flips, Regressions, AllPass, SomePasses, Tally, TrialsOf, PassFraction;
    FlipMeaning(row, s);
    assert !Flipped(row, s) by {
      assert row.c.id !in Flips(rows, s);
    }
    assert !Dropped(row, s) by {
      assert ChangeOf(row, s) !in Regressions(rows, s);
    }
    TallyPasses(TrialsOf(row.b.result), s.baselineHealthy);
    TallyTotal(TrialsOf(row.b.result), s.baselineHealthy);
  }

  // ---- Swapping the sides ----

  function SwapRow(row: Row): Row { Row(row.c, row.b) }

  function SwapSetting(s: Setting): Setting {
    Setting(s.currentHealthy, s.baselineHealthy, s.threshold, s.firstTrialOnly)
  }

  function SwapPair(p: Pair): Pair {
    Pair(p.id, p.currentFraction, p.baselineFraction, p.currentTrials, p.baselineTrials, -p.delta)
  }

  function SwapChange(x: Change): Change {
    Change(x.id, x.currentOutcome, x.baselineOutcome, x.currentFraction, x.baselineFraction, -x.turnsDelta)
  }

  lemma SwappedRow(row: Row, s: Setting)
    requires row.b.id == row.c.id
    ensures PairOf(SwapRow(row), SwapSetting(s)) == SwapPair(PairOf(row, s))
    ensures ChangeOf(SwapRow(row), SwapSetting(s)) == SwapChange(ChangeOf(row, s))
    ensures DiffOf(SwapRow(row), SwapSetting(s)) == -DiffOf(row, s)
    ensures Dropped(SwapRow(row), SwapSetting(s)) == Rose(row, s)
            && Rose(SwapRow(row), SwapSetting(s)) == Dropped(row, s)
  {
    hide CountsOf, StatCounts, PassFraction, Total, AllPassed;
  }

  lemma SwappedSetting(baseline: Suite, current: Suite, opts: Options)
    ensures SettingOf(current, baseline, opts) == SwapSetting(SettingOf(baseline, current, opts))
  {}

  lemma SwappedRows(baseline: Suite, current: Suite, row: Row)
    requires DistinctIds(baseline.tasks) && DistinctIds(current.tasks)
    ensures row in Rows(baseline, current) <==> SwapRow(row) in Rows(current, baseline)
    ensures row in Rows(baseline, current) ==> row.b.id == row.c.id
  {
    hide Rows;
    RowsAreMatches(baseline, current, row);
    RowsAreMatches(current, baseline, SwapRow(row));
  }

  /** One ID, one row. */
  lemma RowOfId(baseline: Suite, current: Suite, r1: Row, r2: Row)
    requires DistinctIds(current.tasks)
    requires r1 in Rows(baseline, current) && r2 in Rows(baseline, current) && r1.c.id == r2.c.id
    ensures r1 == r2
  {
    var i :| 0 <= i < |current.tasks| && current.tasks[i] == r1.c;
    var j :| 0 <= j < |current.tasks| && current.tasks[j] == r2.c;
    assert i == j;
  }

  /** The lists of the two reports mirror each other. */
  ghost predicate PairsSwapped(r: Report, w: Report) { forall p :: p in r.tasks ==> SwapPair(p) in w.tasks }

  ghost predicate ChangesSwapped(r: Report, w: Report) {
    && (forall x :: x in r.regressions ==> SwapChange(x) in w.improvements)
    && (forall x :: x in r.improvements ==> SwapChange(x) in w.regressions)
  }

  ghost predicate DiffsSwapped(r: Report, w: Report)
    requires |r.diffs| == |r.tasks| && |w.diffs| == |w.tasks|
  {
    forall i, j | 0 <= i < |r.tasks| && 0 <= j < |w.tasks| && r.tasks[i].id == w.tasks[j].id ::
      w.diffs[j] == -r.diffs[i]
  }

  /** A task that passed every trial on both sides. */
  ghost predicate SteadyPass(baseline: Suite, current: Suite, s: Setting) {
    exists row ::
      row in Rows(baseline, current) && AllPassed(BaselineCounts(row, s)) && AllPassed(CurrentCounts(row, s))
  }

  /** Pairs, one-sided lists and every delta are mirrored whatever the options. */
  lemma {:induction false} SwapMirrorsPairs(baseline: Suite, current: Suite, opts: Options,
      stats: seq<real> -> Statistics)
    requires DistinctIds(baseline.tasks) && DistinctIds(current.tasks)
    ensures var r, w := ReportOf(baseline, current, opts, stats), ReportOf(current, baseline, opts, stats);
            && |r.diffs| == |r.tasks| && |w.diffs| == |w.tasks|
            && PairsSwapped(r, w) && PairsSwapped(w, r) && DiffsSwapped(r, w)
            && w.baselineOnly == r.currentOnly && w.currentOnly == r.baselineOnly && w.passRateDelta == -r.passRateDelta
  {
    hide *;
    ReportParts(baseline, current, opts, stats);
    ReportParts(current, baseline, opts, stats);
    PairsMirror(baseline, current, opts, stats);
    PairsMirror(current, baseline, opts, stats);
    DiffsMirror(baseline, current, opts, stats);
  }

  lemma {:induction false} PairsMirror(baseline: Suite, current: Suite, opts: Options, stats: seq<real> -> Statistics)
    requires DistinctIds(baseline.tasks) && DistinctIds(current.tasks)
    ensures PairsSwapped(ReportOf(baseline, current, opts, stats), ReportOf(current, baseline, opts, stats))
  {
    var r, w := ReportOf(baseline, current, opts, stats), ReportOf(current, baseline, opts, stats);
    var s, t := SettingOf(baseline, current, opts), SettingOf(current, baseline, opts);
    var rows, swor := Rows(baseline, current), Rows(current, baseline);
    hide ReportOf, SettingOf, Rows, DistinctIds, Pairs, PairOf, SwapPair, SwapSetting, SwapRow;
    ReportParts(baseline, current, opts, stats);
    ReportParts(current, baseline, opts, stats);
    SwappedSetting(baseline, current, opts);
    forall p | p in r.tasks ensures SwapPair(p) in w.tasks {
      InPairs(rows, s, p);
      var row :| row in rows && PairOf(row, s) == p;
      SwappedRows(baseline, current, row);
      SwappedRow(row, s);
      InPairs(swor, t, PairOf(SwapRow(row), t));
    }
  }

  lemma InPairs(rows: seq<Row>, s: Setting, p: Pair)
    ensures p in Pairs(rows, s) <==> exists row :: row in rows && PairOf(row, s) == p
  {
    hide PairOf;
    if p in Pairs(rows, s) {
      var i :| 0 <= i < |rows| && Pairs(rows, s)[i] == p;
      assert rows[i] in rows;
    }
    if row :| row in rows && PairOf(row, s) == p {
      var i :| 0 <= i < |rows| && rows[i] == row;
      assert Pairs(rows, s)[i] == p;
    }
  }

  lemma {:induction false} DiffsMirror(baseline: Suite, current: Suite, opts: Options, stats: seq<real> -> Statistics)
    requires DistinctIds(baseline.tasks) && DistinctIds(current.tasks)
    ensures var r, w := ReportOf(baseline, current, opts, stats), ReportOf(current, baseline, opts, stats);
            |r.diffs| == |r.tasks| && |w.diffs| == |w.tasks| && DiffsSwapped(r, w)
  {
    var r, w := ReportOf(baseline, current, opts, stats), ReportOf(current, baseline, opts, stats);
    var s, t := SettingOf(baseline, current, opts), SettingOf(current, baseline, opts);
    var rows, swor := Rows(baseline, current), Rows(current, baseline);
    hide ReportOf, SettingOf, Rows, DistinctIds, DiffOf, SwapSetting;
    ReportParts(baseline, current, opts, stats);
    ReportParts(current, baseline, opts, stats);
    SwappedSetting(baseline, current, opts);
    forall i, j | 0 <= i < |r.tasks| && 0 <= j < |w.tasks| && r.tasks[i].id == w.tasks[j].id
        ensures w.diffs[j] == -r.diffs[i] {
      assert rows[i] in rows && swor[j] in swor;
      SwappedRows(baseline, current, rows[i]);
      SwappedRow(rows[i], s);
      RowOfId(current, baseline, swor[j], SwapRow(rows[i]));
    }
  }

  lemma BothListedIsSteady(row: Row, s: Setting)
    ensures Dropped(row, s) && Rose(row, s) <==>
            AllPassed(BaselineCounts(row, s)) && AllPassed(CurrentCounts(row, s)) && s.threshold + EPSILON >= 1.0
  {
    hide PassFraction, CountsOf;
    if AllPassed(BaselineCounts(row, s)) {
      AllPassIsOne(BaselineCounts(row, s));
    }
    if AllPassed(CurrentCounts(row, s)) {
      AllPassIsOne(CurrentCounts(row, s));
    }
  }

  /** No row meets both conditions of the switch. */
  ghost predicate Exclusive(baseline: Suite, current: Suite, s: Setting) {
    forall row :: row in Rows(baseline, current) ==> !(Dropped(row, s) && Rose(row, s))
  }

  lemma {:induction false} ChangesMirror(baseline: Suite, current: Suite, opts: Options, stats: seq<real> -> Statistics)
    requires DistinctIds(baseline.tasks) && DistinctIds(current.tasks)
    requires Exclusive(baseline, current, SettingOf(baseline, current, opts))
    ensures ChangesSwapped(ReportOf(baseline, current, opts, stats), ReportOf(current, baseline, opts, stats))
  {
    var r, w := ReportOf(baseline, current, opts, stats), ReportOf(current, baseline, opts, stats);
    var s, t := SettingOf(baseline, current, opts), SettingOf(current, baseline, opts);
    var rows, swor := Rows(baseline, current), Rows(current, baseline);
    hide ReportOf, SettingOf, Rows, DistinctIds, ChangeOf, SwapChange, SwapSetting, Dropped, Rose, Regressions,
        Improvements, SwapRow;
    ReportParts(baseline, current, opts, stats);
    ReportParts(current, baseline, opts, stats);
    SwappedSetting(baseline, current, opts);
    forall x | x in r.regressions ensures SwapChange(x) in w.improvements {
      var row :| row in rows && Dropped(row, s) && x == ChangeOf(row, s);
      SwappedRows(baseline, current, row);
      SwappedRow(row, s);
      assert SwapRow(row) in swor && !Dropped(SwapRow(row), t) && Rose(SwapRow(row), t);
    }
    forall x | x in r.improvements ensures SwapChange(x) in w.regressions {
      var row :| row in rows && !Dropped(row, s) && Rose(row, s) && x == ChangeOf(row, s);
      SwappedRows(baseline, current, row);
      SwappedRow(row, s);
      assert SwapRow(row) in swor && Dropped(SwapRow(row), t);
    }
  }

  /** A row that meets both conditions is a regression whichever side is the baseline. */
  lemma {:induction false} ChangesNotMirrored(baseline: Suite, current: Suite, opts: Options,
      stats: seq<real> -> Statistics)
    requires DistinctIds(baseline.tasks) && DistinctIds(current.tasks)
    requires !Exclusive(baseline, current, SettingOf(baseline, current, opts))
    ensures !ChangesSwapped(ReportOf(baseline, current, opts, stats), ReportOf(current, baseline, opts, stats))
  {
    var r, w := ReportOf(baseline, current, opts, stats), ReportOf(current, baseline, opts, stats);
    var s, t := SettingOf(baseline, current, opts), SettingOf(current, baseline, opts);
    var rows, swor := Rows(baseline, current), Rows(current, baseline);
    hide ReportOf, SettingOf, Rows, DistinctIds, SwapSetting, Dropped, Rose, Regressions, Improvements;
    ReportParts(baseline, current, opts, stats);
    ReportParts(current, baseline, opts, stats);
    SwappedSetting(baseline, current, opts);
    var row :| row in rows && Dropped(row, s) && Rose(row, s);
    assert ChangeOf(row, s) in r.regressions;
    SwappedRows(baseline, current, row);
    SwappedRow(row, s);
    if SwapChange(ChangeOf(row, s)) in w.improvements {
      var other :| other in swor && !Dropped(other, t) && Rose(other, t)
          && SwapChange(ChangeOf(row, s)) == ChangeOf(other, t);
      RowOfId(current, baseline, other, SwapRow(row));
      assert false;
    }
  }

  lemma {:induction false} ExclusiveSwapped(baseline: Suite, current: Suite, opts: Options)
    requires DistinctIds(baseline.tasks) && DistinctIds(current.tasks)
    requires Exclusive(baseline, current, SettingOf(baseline, current, opts))
    ensures Exclusive(current, baseline, SettingOf(current, baseline, opts))
  {
    var s, t := SettingOf(baseline, current, opts), SettingOf(current, baseline, opts);
    hide SettingOf, Rows, DistinctIds, SwapSetting, Dropped, Rose;
    SwappedSetting(baseline, current, opts);
    forall row | row in Rows(current, baseline) ensures !(Dropped(row, t) && Rose(row, t)) {
      var mirrored := SwapRow(row);
      SwappedRows(baseline, current, mirrored);
      SwappedRow(mirrored, s);
      assert SwapRow(mirrored) == row && mirrored in Rows(baseline, current);
    }
  }

  /**
   Swapping the sides swaps regressions with improvements exactly when no task that passed every
   trial on both sides meets a flip threshold that, with the epsilon, reaches 1.
   */
  lemma {:induction false} SwapMirrorsChanges(baseline: Suite, current: Suite, opts: Options,
      stats: seq<real> -> Statistics)
    requires DistinctIds(baseline.tasks) && DistinctIds(current.tasks)
    ensures var r, w := ReportOf(baseline, current, opts, stats), ReportOf(current, baseline, opts, stats);
            ChangesSwapped(r, w) && ChangesSwapped(w, r) <==>
            opts.flipThreshold + EPSILON < 1.0 || !SteadyPass(baseline, current, SettingOf(baseline, current, opts))
  {
    var s := SettingOf(baseline, current, opts);
    SettingIs(baseline, current, opts);
    hide ReportOf, SettingOf, Rows, DistinctIds, Dropped, Rose, AllPassed, BaselineCounts, CurrentCounts,
        ChangesSwapped;
    forall row ensures Dropped(row, s) && Rose(row, s) <==>
            AllPassed(BaselineCounts(row, s)) && AllPassed(CurrentCounts(row, s)) && s.threshold + EPSILON >= 1.0 {
      BothListedIsSteady(row, s);
    }
    if Exclusive(baseline, current, s) {
      ChangesMirror(baseline, current, opts, stats);
      ExclusiveSwapped(baseline, current, opts);
      ChangesMirror(current, baseline, opts, stats);
    } else {
      ChangesNotMirrored(baseline, current, opts, stats);
    }
  }

  function PassingTask(): Task { Task("task", TaskResult(Pass, 1.0, [], Healthy, NoVerification, 0, 0), None) }

  function PassingSuite(): Suite { Suite([PassingTask()], false, Fixed) }

  lemma PassingTaskPasses()
    ensures AllPassed(CountsOf(PassingTask(), false))
  {
    OneTrial(TrialsOf(PassingTask().result)[0], false);
  }

  lemma PassingSuiteIsSteady(s: Setting)
    requires !s.baselineHealthy && !s.currentHealthy
    ensures SteadyPass(PassingSuite(), PassingSuite(), s)
  {
    hide AllPassed, CountsOf, Rows, PassingTask;
    var row := Row(PassingTask(), PassingTask());
    RowsAreMatches(PassingSuite(), PassingSuite(), row);
    PassingTaskPasses();
    assert row in Rows(PassingSuite(), PassingSuite()) && AllPassed(BaselineCounts(row, s))
               && AllPassed(CurrentCounts(row, s));
  }

  /** A valid threshold within the epsilon of 1 lists an unchanged passing task as a regression both ways. */
  lemma {:induction false} ThresholdNearOne(stats: seq<real> -> Statistics)
    ensures var opts := Options(0.1, 0.9999999995);
            var r := ReportOf(PassingSuite(), PassingSuite(), opts, stats);
            ValidOptions(opts) && DistinctIds(PassingSuite().tasks) && !ChangesSwapped(r, r)
  {
    var suite, opts := PassingSuite(), Options(0.1, 0.9999999995);
    hide ReportOf, SettingOf, PassingTask, SteadyPass, ChangesSwapped;
    SettingIs(suite, suite, opts);
    PassingSuiteIsSteady(SettingOf(suite, suite, opts));
    SwapMirrorsChanges(suite, suite, opts, stats);
  }
}
