/**
 What the comparison of eval/reporter/reporter.go makes of one run of the current side under the
 fixed and under the confirm-on-fail policy.
 */
module ComparisonPolicy {
  import opened TrialPolicy
  import opened SortedStrings
  import opened Comparison
  import opened ComparisonLaws

  /** The same trials under the two policies: confirm-on-fail keeps only the first of a task it passes. */
  predicate SameRuns(fixed: seq<Task>, confirmed: seq<Task>, requireHealthy: bool) {
    |fixed| == |confirmed| && forall i | 0 <= i < |fixed| :: SameRun(fixed[i], confirmed[i], requireHealthy)
  }

  predicate SameRun(fixed: Task, confirmed: Task, requireHealthy: bool) {
    fixed.id == confirmed.id && TrialsOf(confirmed.result) == Confirmed(TrialsOf(fixed.result), requireHealthy)
  }

  /** The settings differ at most in whether statistics use first trials alone. */
  predicate SameRules(s: Setting, t: Setting) { t == s.(firstTrialOnly := t.firstTrialOnly) }

  function FirstTrials(s: Setting): Setting { s.(firstTrialOnly := true) }

  /** What a confirmed pair is to the fixed one. */
  predicate AtLeast(confirmed: Pair, fixed: Pair) {
    && confirmed.id == fixed.id && confirmed.baselineFraction == fixed.baselineFraction
    && confirmed.currentFraction >= fixed.currentFraction && confirmed.delta >= fixed.delta
  }

  lemma {:induction false} PolicyRow(b: Task, fixed: Task, confirmed: Task, s: Setting, t: Setting)
    requires SameRun(fixed, confirmed, s.currentHealthy) && SameRules(s, t)
    ensures Flipped(Row(b, confirmed), t) == Flipped(Row(b, fixed), s)
    ensures Dropped(Row(b, confirmed), t) ==> Dropped(Row(b, fixed), s)
    ensures DiffOf(Row(b, confirmed), FirstTrials(s)) == DiffOf(Row(b, fixed), FirstTrials(s))
    ensures AtLeast(PairOf(Row(b, confirmed), t), PairOf(Row(b, fixed), s))
  {
    hide Tally, TrialsOf, PassFraction, Confirmed, FirstTrialGateCounts;
    ConfirmComparesWithFixed(TrialsOf(fixed.result), s.currentHealthy, fixed.result, confirmed.result);
    TallyTotal(TrialsOf(fixed.result), s.currentHealthy);
    TallyTotal(TrialsOf(confirmed.result), s.currentHealthy);
  }

  /** The fixed rows f and the confirmed rows c compare as the policies promise. */
  ghost predicate RowsCompare(f: seq<Row>, c: seq<Row>, s: Setting, t: Setting) {
    && Flips(c, t) == Flips(f, s)
    && (forall x :: x in Regressions(c, t) ==> exists y :: y in Regressions(f, s) && y.id == x.id)
    && Diffs(c, FirstTrials(s)) == Diffs(f, FirstTrials(s))
    && |c| == |f| && forall i | 0 <= i < |c| :: AtLeast(Pairs(c, t)[i], Pairs(f, s)[i])
  }

  lemma {:induction false} PolicyKeepsRows(
    index: map<string, Task>, fixed: seq<Task>, confirmed: seq<Task>, s: Setting, t: Setting)
    requires SameRuns(fixed, confirmed, s.currentHealthy) && SameRules(s, t)
    ensures RowsCompare(Joined(index, fixed), Joined(index, confirmed), s, t)
  {
    if fixed != [] {
      hide *;
      var n := |fixed| - 1;
      SameRunsFront(fixed, confirmed, s.currentHealthy);
      PolicyKeepsRows(index, fixed[..n], confirmed[..n], s, t);
      assert fixed[..n + 1] == fixed && confirmed[..n + 1] == confirmed;
      JoinedOneMore(index, fixed, n);
      JoinedOneMore(index, confirmed, n);
      var f, c := Joined(index, fixed[..n]), Joined(index, confirmed[..n]);
      if fixed[n].id in index {
        var b := index[fixed[n].id];
        PolicyRow(b, fixed[n], confirmed[n], s, t);
        PolicyStep(f, c, Row(b, fixed[n]), Row(b, confirmed[n]), s, t);
      } else {
        assert f + [] == f && c + [] == c;
      }
    }
  }

  lemma SameRunsFront(fixed: seq<Task>, confirmed: seq<Task>, requireHealthy: bool)
    requires SameRuns(fixed, confirmed, requireHealthy) && fixed != []
    ensures |confirmed| == |fixed| && SameRun(fixed[|fixed| - 1], confirmed[|fixed| - 1], requireHealthy)
    ensures fixed[|fixed| - 1].id == confirmed[|fixed| - 1].id
    ensures SameRuns(fixed[..|fixed| - 1], confirmed[..|fixed| - 1], requireHealthy)
  {}

  lemma PolicyStep(f: seq<Row>, c: seq<Row>, x: Row, y: Row, s: Setting, t: Setting)
    requires RowsCompare(f, c, s, t) && AtLeast(PairOf(y, t), PairOf(x, s))
    requires x.c.id == y.c.id && Flipped(y, t) == Flipped(x, s) && (Dropped(y, t) ==> Dropped(x, s))
    requires DiffOf(y, FirstTrials(s)) == DiffOf(x, FirstTrials(s))
    ensures RowsCompare(f + [x], c + [y], s, t)
  {
    hide Dropped, Rose, Flipped, PairOf, DiffOf, Regressions, Improvements, Flips, Diffs, Pairs, AtLeast, FirstTrials;
    ListsOfOneMore(f, x, s);
    ListsOfOneMore(c, y, t);
    ListsOfOneMore(f, x, FirstTrials(s));
    ListsOfOneMore(c, y, FirstTrials(s));
    RegressionsStep(f, c, x, y, s, t);
  }

  lemma RegressionsStep(f: seq<Row>, c: seq<Row>, x: Row, y: Row, s: Setting, t: Setting)
    requires x.c.id == y.c.id && (Dropped(y, t) ==> Dropped(x, s))
    requires forall a :: a in Regressions(c, t) ==> exists b :: b in Regressions(f, s) && b.id == a.id
    ensures forall a :: a in Regressions(c + [y], t) ==> exists b :: b in Regressions(f + [x], s) && b.id == a.id
  {
    hide Dropped, Rose, Flipped, PairOf, DiffOf, Regressions, Improvements, Flips, Diffs, Pairs;
    ListsOfOneMore(f, x, s);
    ListsOfOneMore(c, y, t);
    forall a | a in Regressions(c + [y], t) ensures exists b :: b in Regressions(f + [x], s) && b.id == a.id {
      if a in Regressions(c, t) {
        var b :| b in Regressions(f, s) && b.id == a.id;
        assert b in Regressions(f + [x], s);
      } else {
        assert ChangeOf(x, s) in Regressions(f + [x], s);
      }
    }
  }

  lemma {:induction false} SameIds(fixed: seq<Task>, confirmed: seq<Task>, requireHealthy: bool,
      other: map<string, Task>)
    requires SameRuns(fixed, confirmed, requireHealthy)
    ensures AbsentFrom(confirmed, other) == AbsentFrom(fixed, other) && Index(confirmed).Keys == Index(fixed).Keys
  {
    if fixed != [] {
      hide SameRuns, SameRun, AbsentFrom, Index;
      SameRunsFront(fixed, confirmed, requireHealthy);
      SameIds(fixed[..|fixed| - 1], confirmed[..|fixed| - 1], requireHealthy, other);
      IdsOfOneMore(fixed, other);
      IdsOfOneMore(confirmed, other);
    }
  }

  lemma IdsOfOneMore(tasks: seq<Task>, other: map<string, Task>)
    requires tasks != []
    ensures var front, id := tasks[..|tasks| - 1], tasks[|tasks| - 1].id;
            && AbsentFrom(tasks, other) == AbsentFrom(front, other) + (if id in other then [] else [id])
            && Index(tasks).Keys == Index(front).Keys + {id}
  {}

  lemma {:induction false} AbsentFromKeys(tasks: seq<Task>, a: map<string, Task>, b: map<string, Task>)
    requires a.Keys == b.Keys
    ensures AbsentFrom(tasks, a) == AbsentFrom(tasks, b)
  {
    if tasks != [] {
      AbsentFromKeys(tasks[..|tasks| - 1], a, b);
      assert forall x :: x in a <==> x in a.Keys;
      assert forall x :: x in b <==> x in b.Keys;
    }
  }

  lemma {:induction false} FractionsAtLeast(fixed: seq<Task>, confirmed: seq<Task>, requireHealthy: bool)
    requires SameRuns(fixed, confirmed, requireHealthy)
    ensures SumOfFractions(confirmed, requireHealthy) >= SumOfFractions(fixed, requireHealthy)
  {
    if fixed != [] {
      hide Tally, TrialsOf, PassFraction, Confirmed, FirstTrialGateCounts;
      var n := |fixed| - 1;
      SameRunsFront(fixed, confirmed, requireHealthy);
      FractionsAtLeast(fixed[..n], confirmed[..n], requireHealthy);
      ConfirmComparesWithFixed(TrialsOf(fixed[n].result), requireHealthy, fixed[n].result, confirmed[n].result);
    }
  }

  lemma MeansAtLeast(fixed: Suite, confirmed: Suite)
    requires SameSuites(fixed, confirmed)
    ensures MeanFraction(confirmed) >= MeanFraction(fixed)
  {
    hide SumOfFractions;
    FractionsAtLeast(fixed.tasks, confirmed.tasks, fixed.requireHealthy);
    if fixed.tasks != [] {
      MeanIsMonotone(SumOfFractions(fixed.tasks, fixed.requireHealthy),
                     SumOfFractions(confirmed.tasks, fixed.requireHealthy), |fixed.tasks| as real);
    }
  }

  /** One run of a suite as the two policies would report it. */
  predicate SameSuites(fixed: Suite, confirmed: Suite) {
    && fixed.requireHealthy == confirmed.requireHealthy && SameRuns(fixed.tasks, confirmed.tasks, fixed.requireHealthy)
    && Resolve(fixed.policy) == Fixed && Resolve(confirmed.policy) == ConfirmOnFail
  }

  /**
   Against any baseline, running the current side under confirm-on-fail instead of fixed changes no
   deterministic flip, pairing or missing task, lists no new regression, and lowers no delta. It
   does change which trials the paired statistics use, but where those are first trials they are
   the first trials of the fixed run.
   */
  lemma {:induction false} PolicyKeepsFlips(
    baseline: Suite, fixed: Suite, confirmed: Suite, opts: Options, stats: seq<real> -> Statistics)
    requires SameSuites(fixed, confirmed)
    ensures var f, c := ReportOf(baseline, fixed, opts, stats), ReportOf(baseline, confirmed, opts, stats);
            && c.flips == f.flips && c.baselineOnly == f.baselineOnly && c.currentOnly == f.currentOnly
            && (forall x :: x in c.regressions ==> exists y :: y in f.regressions && y.id == x.id)
            && |c.tasks| == |f.tasks| && (forall i | 0 <= i < |c.tasks| :: AtLeast(c.tasks[i], f.tasks[i]))
            && c.passRateDelta >= f.passRateDelta
    ensures var s := SettingOf(baseline, confirmed, opts);
            s.firstTrialOnly ==>
              ReportOf(baseline, confirmed, opts, stats).diffs == Diffs(Rows(baseline, fixed), s)
    ensures SettingOf(baseline, confirmed, opts).firstTrialOnly <==> Resolve(baseline.policy) != ConfirmOnFail
  {
    var s, t := SettingOf(baseline, fixed, opts), SettingOf(baseline, confirmed, opts);
    assert SameRules(s, t) && (t.firstTrialOnly ==> t == FirstTrials(s));
    assert Rows(baseline, fixed) == Joined(Index(baseline.tasks), fixed.tasks);
    assert Rows(baseline, confirmed) == Joined(Index(baseline.tasks), confirmed.tasks);
    hide ReportOf, SettingOf, Rows, Joined, Index, SameRuns, SameRules, Regressions, Flips, AtLeast, AbsentFrom,
         SortCompact, MeanFraction, Improvements, FirstTrials;
    PolicyKeepsRows(Index(baseline.tasks), fixed.tasks, confirmed.tasks, s, t);
    ReportParts(baseline, fixed, opts, stats);
    ReportParts(baseline, confirmed, opts, stats);
    MeansAtLeast(fixed, confirmed);
    SameIds(fixed.tasks, confirmed.tasks, fixed.requireHealthy, Index(baseline.tasks));
    AbsentFromKeys(baseline.tasks, Index(confirmed.tasks), Index(fixed.tasks));
  }
}
