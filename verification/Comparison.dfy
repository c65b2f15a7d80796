/**
 Models the comparison of two suite results and its gate, eval/reporter/reporter.go. Fractions are
 exact; the paired statistics of the differences are a parameter, since they rest on Student's t.
 */
module Comparison {
  import opened TrialPolicy
  import opened SortedStrings

  const MIN_GATE_TASKS := 3
  const EPSILON := 0.000000001

  datatype Policy = Unset | Fixed | ConfirmOnFail | OtherPolicy(text: string)

  /** turns is None for a task without a trace. */
  datatype Turns = None | Turns(n: int)
  datatype Task = Task(id: string, result: TaskResult, turns: Turns)
  datatype Suite = Suite(tasks: seq<Task>, requireHealthy: bool, policy: Policy)
  datatype Options = Options(warnMargin: real, flipThreshold: real)

  /** Options.Validate. */
  predicate ValidOptions(o: Options) { 0.0 <= o.warnMargin <= 1.0 && 0.0 <= o.flipThreshold < 1.0 }

  datatype Pair = Pair(id: string, baselineFraction: real, currentFraction: real, baselineTrials: nat,
      currentTrials: nat, delta: real)

  /** A listed regression or improvement. */
  datatype Change = Change(id: string, baselineOutcome: Outcome, currentOutcome: Outcome,
                           baselineFraction: real, currentFraction: real, turnsDelta: int)

  /** The paired statistics: absent, without a usable interval (a NaN), or with one. */
  datatype Statistics = Absent | NoInterval | Interval(meanDelta: real, upperBound: real)

  datatype Gate = GatePass | GateInconclusive | GateWarn | GateBlock
  datatype Reason = DeterministicFlip(ids: seq<string>) | TooFewPairs(n: nat) | BoundBelowZero(bound: real)
                  | MeanDrop(mean: real) | Regressed(changes: seq<Change>) | Missing(ids: seq<string>)

  datatype Report = Report(regressions: seq<Change>, improvements: seq<Change>, tasks: seq<Pair>,
                           baselineOnly: seq<string>, currentOnly: seq<string>, flips: seq<string>,
                           diffs: seq<real>, passRateDelta: real, firstTrialOnly: bool, gate: Gate,
                           reasons: seq<Reason>)

  // ---- Task IDs ----

  function Ids(tasks: seq<Task>): (ids: set<string>) { set t | t in tasks :: t.id }

  predicate DistinctIds(tasks: seq<Task>) { forall i, j | 0 <= i < j < |tasks| :: tasks[i].id != tasks[j].id }

  /** The index by ID; a later task replaces an earlier one of the same ID. */
  function Index(tasks: seq<Task>): (m: map<string, Task>)
    ensures forall id <- m :: m[id] in tasks && m[id].id == id
    ensures forall t <- tasks :: t.id in m
  {
    if tasks == [] then map[] else Index(tasks[..|tasks| - 1])[tasks[|tasks| - 1].id := tasks[|tasks| - 1]]
  }

  /** indexByTaskID. */
  method IndexByTaskID(tasks: seq<Task>) returns (m: map<string, Task>)
    ensures m == Index(tasks)
  {
    m := map[];
    for i := 0 to |tasks|
      invariant m == Index(tasks[..i])
    {
      assert tasks[..i + 1][..i] == tasks[..i];
      m := m[tasks[i].id := tasks[i]];
    }
    assert tasks[..|tasks|] == tasks;
  }

  function AbsentFrom(tasks: seq<Task>, other: map<string, Task>): (ids: seq<string>)
    ensures forall x :: x in ids <==> x in Ids(tasks) && x !in other
  {
    if tasks == [] then []
    else
      AbsentFrom(tasks[..|tasks| - 1], other)
      + (if tasks[|tasks| - 1].id in other then [] else [tasks[|tasks| - 1].id])
  }

  /** unpairedIDs: exactly the IDs missing from other, in order and once each. */
  method UnpairedIDs(tasks: seq<Task>, other: map<string, Task>) returns (ids: seq<string>)
    ensures ids == SortCompact(AbsentFrom(tasks, other))
    ensures StrictlySorted(ids) && forall x :: x in ids <==> x in Ids(tasks) && x !in other
  {
    ids := [];
    for i := 0 to |tasks|
      invariant ids == AbsentFrom(tasks[..i], other)
    {
      assert tasks[..i + 1][..i] == tasks[..i];
      if tasks[i].id !in other {
        ids := ids + [tasks[i].id];
      }
    }
    assert tasks[..|tasks|] == tasks;
    SortCompactSorts(ids);
    ids := SortCompact(ids);
  }

  // ---- Paired tasks ----

  /** A task of the current run with the baseline task of the same ID. */
  datatype Row = Row(b: Task, c: Task)

  /** What the comparison of one row depends on. */
  datatype Setting = Setting(baselineHealthy: bool, currentHealthy: bool, threshold: real, firstTrialOnly: bool)

  function Joined(index: map<string, Task>, tasks: seq<Task>): (rows: seq<Row>)
    ensures forall row :: row in rows <==> row.c in tasks && row.c.id in index && row.b == index[row.c.id]
  {
    if tasks == [] then []
    else
      var last := tasks[|tasks| - 1];
      assert tasks == tasks[..|tasks| - 1] + [last];
      Joined(index, tasks[..|tasks| - 1]) + (if last.id in index then [Row(index[last.id], last)] else [])
  }

  function CountsOf(t: Task, requireHealthy: bool): Counts { Tally(TrialsOf(t.result), requireHealthy) }
  function StatCounts(t: Task, requireHealthy: bool, first: bool): Counts {
    if first then FirstTrialGateCounts(t.result, requireHealthy) else CountsOf(t, requireHealthy)
  }
  function BaselineCounts(row: Row, s: Setting): Counts { CountsOf(row.b, s.baselineHealthy) }
  function CurrentCounts(row: Row, s: Setting): Counts { CountsOf(row.c, s.currentHealthy) }

  predicate AllPassed(c: Counts) { Total(c) > 0 && c.pass == Total(c) }
  predicate NonePassed(c: Counts) { Total(c) > 0 && c.pass == 0 }

  /** The three conditions of the loop. A row that meets the first is never listed as an improvement. */
  predicate Dropped(row: Row, s: Setting) {
    AllPassed(BaselineCounts(row, s)) && PassFraction(CurrentCounts(row, s)) <= s.threshold + EPSILON
  }
  predicate Rose(row: Row, s: Setting) {
    AllPassed(CurrentCounts(row, s)) && PassFraction(BaselineCounts(row, s)) <= s.threshold + EPSILON
  }
  predicate Flipped(row: Row, s: Setting) { AllPassed(BaselineCounts(row, s)) && NonePassed(CurrentCounts(row, s)) }

  function TurnsDelta(b: Task, c: Task): int { if b.turns.None? || c.turns.None? then 0 else c.turns.n - b.turns.n }

  function PairOf(row: Row, s: Setting): Pair {
    var bc, cc := BaselineCounts(row, s), CurrentCounts(row, s);
    Pair(row.c.id, PassFraction(bc), PassFraction(cc), Total(bc), Total(cc), PassFraction(cc) - PassFraction(bc))
  }

  function ChangeOf(row: Row, s: Setting): Change {
    Change(row.c.id, row.b.result.outcome, row.c.result.outcome,
           PassFraction(BaselineCounts(row, s)), PassFraction(CurrentCounts(row, s)), TurnsDelta(row.b, row.c))
  }

  function DiffOf(row: Row, s: Setting): real {
    PassFraction(StatCounts(row.c, s.currentHealthy, s.firstTrialOnly))
        - PassFraction(StatCounts(row.b, s.baselineHealthy, s.firstTrialOnly))
  }

  function Pairs(rows: seq<Row>, s: Setting): (r: seq<Pair>)
    ensures |r| == |rows| && forall i | 0 <= i < |rows| :: r[i] == PairOf(rows[i], s)
  {
    seq(|rows|, i requires 0 <= i < |rows| => PairOf(rows[i], s))
  }

  function Diffs(rows: seq<Row>, s: Setting): (r: seq<real>)
    ensures |r| == |rows| && forall i | 0 <= i < |rows| :: r[i] == DiffOf(rows[i], s)
  {
    seq(|rows|, i requires 0 <= i < |rows| => DiffOf(rows[i], s))
  }

  function Regressions(rows: seq<Row>, s: Setting): (r: seq<Change>)
    ensures forall x :: x in r <==> exists row :: row in rows && Dropped(row, s) && x == ChangeOf(row, s)
  {
    if rows == [] then []
    else
      var last := rows[|rows| - 1];
      assert rows == rows[..|rows| - 1] + [last];
      Regressions(rows[..|rows| - 1], s) + (if Dropped(last, s) then [ChangeOf(last, s)] else [])
  }

  function Improvements(rows: seq<Row>, s: Setting): (r: seq<Change>)
    ensures forall x :: x in r <==>
              exists row :: row in rows && !Dropped(row, s) && Rose(row, s) && x == ChangeOf(row, s)
  {
    if rows == [] then []
    else
      var last := rows[|rows| - 1];
      assert rows == rows[..|rows| - 1] + [last];
      Improvements(rows[..|rows| - 1], s) + (if !Dropped(last, s) && Rose(last, s) then [ChangeOf(last, s)] else [])
  }

  function Flips(rows: seq<Row>, s: Setting): (r: seq<string>)
    ensures forall x :: x in r <==> exists row :: row in rows && Flipped(row, s) && x == row.c.id
  {
    if rows == [] then []
    else
      var last := rows[|rows| - 1];
      assert rows == rows[..|rows| - 1] + [last];
      Flips(rows[..|rows| - 1], s) + (if Flipped(last, s) then [last.c.id] else [])
  }

  // ---- The gate ----

  function Severity(g: Gate): nat {
    match g case GatePass => 0 case GateInconclusive => 1 case GateWarn => 2 case GateBlock => 3
  }

  datatype Decision = Decision(gate: Gate, reasons: seq<Reason>)

  function BaseGate(pairs: nat, stats: Statistics, flips: seq<string>, warnMargin: real): Decision {
    if |flips| > 0 then Decision(GateBlock, [DeterministicFlip(flips)])
    else if pairs < MIN_GATE_TASKS || !stats.Interval? then Decision(GateInconclusive, [TooFewPairs(pairs)])
    else if stats.upperBound < 0.0 then Decision(GateBlock, [BoundBelowZero(stats.upperBound)])
    else if stats.meanDelta < -warnMargin - EPSILON then Decision(GateWarn, [MeanDrop(stats.meanDelta)])
    else Decision(GatePass, [])
  }

  function FloorGate(d: Decision, floor: Gate, reason: Reason): (r: Decision)
    ensures Severity(r.gate) == if Severity(d.gate) > Severity(floor) then Severity(d.gate) else Severity(floor)
  {
    if Severity(d.gate) > Severity(floor) then d else Decision(floor, d.reasons + [reason])
  }

  function DecideGate(pairs: nat, stats: Statistics, flips: seq<string>, regressions: seq<Change>,
      missing: seq<string>, warnMargin: real): Decision {
    var base := BaseGate(pairs, stats, flips, warnMargin);
    var afterRegressions := if |regressions| > 0 then FloorGate(base, GateWarn, Regressed(regressions)) else base;
    if |missing| > 0 then FloorGate(afterRegressions, GateWarn, Missing(missing)) else afterRegressions
  }

  /** The interval may decide: enough pairs, and statistics that carry one. */
  predicate Measured(pairs: nat, stats: Statistics) { pairs >= 3 && stats.Interval? }

  /** When each gate is given. */
  lemma GateMeaning(pairs: nat, stats: Statistics, flips: seq<string>, regressions: seq<Change>, missing: seq<string>,
                    warnMargin: real)
    ensures var gate := DecideGate(pairs, stats, flips, regressions, missing, warnMargin).gate;
            var measured := Measured(pairs, stats);
            && (gate == GateBlock <==> flips != [] || (measured && stats.upperBound < 0.0))
            && (gate == GatePass <==> flips == [] && regressions == [] && missing == [] && measured
                                      && stats.upperBound >= 0.0 && stats.meanDelta >= -warnMargin - 0.000000001)
            && (gate == GateInconclusive <==> flips == [] && regressions == [] && missing == [] && !measured)
  {}

  /** Every gate but a pass gives a reason, and which reasons are given. */
  lemma GateReasons(pairs: nat, stats: Statistics, flips: seq<string>, regressions: seq<Change>, missing: seq<string>,
                    warnMargin: real)
    ensures var d := DecideGate(pairs, stats, flips, regressions, missing, warnMargin);
            && (d.gate == GatePass <==> d.reasons == [])
            && (DeterministicFlip(flips) in d.reasons <==> flips != [])
            && (Regressed(regressions) in d.reasons <==> regressions != [] && d.gate != GateBlock)
            && (Missing(missing) in d.reasons <==> missing != [] && d.gate != GateBlock)
  {}

  // ---- Compare ----

  function Resolve(p: Policy): Policy { if p == Unset then Fixed else p }

  function FirstTrialOnly(baseline: Suite, current: Suite): bool {
    Resolve(baseline.policy) != Resolve(current.policy)
    && (Resolve(baseline.policy) == ConfirmOnFail || Resolve(current.policy) == ConfirmOnFail)
  }

  function SettingOf(baseline: Suite, current: Suite, opts: Options): Setting {
    Setting(baseline.requireHealthy, current.requireHealthy, opts.flipThreshold, FirstTrialOnly(baseline, current))
  }

  function SumOfFractions(tasks: seq<Task>, requireHealthy: bool): real {
    if tasks == [] then 0.0
    else
      SumOfFractions(tasks[..|tasks| - 1], requireHealthy)
      + PassFraction(CountsOf(tasks[|tasks| - 1], requireHealthy))
  }

  function MeanFraction(suite: Suite): real {
    if suite.tasks == [] then 0.0 else SumOfFractions(suite.tasks, suite.requireHealthy) / |suite.tasks| as real
  }

  function Rows(baseline: Suite, current: Suite): seq<Row> { Joined(Index(baseline.tasks), current.tasks) }

  /** The report the comparison is meant to give; stats stands for the paired statistics. */
  function ReportOf(baseline: Suite, current: Suite, opts: Options, stats: seq<real> -> Statistics): Report {
    var s := SettingOf(baseline, current, opts);
    var rows := Rows(baseline, current);
    var baselineOnly := SortCompact(AbsentFrom(baseline.tasks, Index(current.tasks)));
    var currentOnly := SortCompact(AbsentFrom(current.tasks, Index(baseline.tasks)));
    var d := DecideGate(|rows|, stats(Diffs(rows, s)), Flips(rows, s), Regressions(rows, s), baselineOnly,
        opts.warnMargin);
    Report(Regressions(rows, s), Improvements(rows, s), Pairs(rows, s), baselineOnly, currentOnly, Flips(rows, s),
           Diffs(rows, s), MeanFraction(current) - MeanFraction(baseline), s.firstTrialOnly, d.gate, d.reasons)
  }

  /** The lists the loop of Compare builds. */
  datatype Lists = Lists(regressions: seq<Change>, improvements: seq<Change>, pairs: seq<Pair>, flips: seq<string>,
      diffs: seq<real>)

  function ListsOf(rows: seq<Row>, s: Setting): Lists {
    Lists(Regressions(rows, s), Improvements(rows, s), Pairs(rows, s), Flips(rows, s), Diffs(rows, s))
  }

  /** One iteration of Compare's loop, for a task found in the baseline. */
  method Account(row: Row, s: Setting, lists: Lists, ghost rows: seq<Row>) returns (r: Lists)
    requires lists == ListsOf(rows, s)
    ensures r == ListsOf(rows + [row], s)
  {
    hide Tally, TrialsOf, PassFraction, Total, FirstTrialGateCounts, ListsOf, PairOf, ChangeOf, DiffOf, Flipped,
        Dropped, Rose;
    r := lists;
    var bc := GateCounts(row.b.result, s.baselineHealthy);
    var cc := GateCounts(row.c.result, s.currentHealthy);
    var bf, cf := PassFraction(bc), PassFraction(cc);
    r := r.(pairs := r.pairs + [Pair(row.c.id, bf, cf, Total(bc), Total(cc), cf - bf)]);
    var sbc, scc := bc, cc;
    if s.firstTrialOnly {
      sbc, scc := FirstTrialGateCounts(row.b.result, s.baselineHealthy),
          FirstTrialGateCounts(row.c.result, s.currentHealthy);
    }
    r := r.(diffs := r.diffs + [PassFraction(scc) - PassFraction(sbc)]);
    var baselineAllPass := Total(bc) > 0 && bc.pass == Total(bc);
    if baselineAllPass && Total(cc) > 0 && cc.pass == 0 {
      r := r.(flips := r.flips + [row.c.id]);
    }
    var currentAllPass := Total(cc) > 0 && cc.pass == Total(cc);
    if baselineAllPass && cf <= s.threshold + EPSILON {
      r := r.(regressions := r.regressions
                + [Change(row.c.id, row.b.result.outcome, row.c.result.outcome, bf, cf, TurnsDelta(row.b, row.c))]);
    } else if currentAllPass && bf <= s.threshold + EPSILON {
      r := r.(improvements := r.improvements
                + [Change(row.c.id, row.b.result.outcome, row.c.result.outcome, bf, cf, TurnsDelta(row.b, row.c))]);
    }
    RowMeaning(row, s, bc, cc, sbc, scc);
    hide *;
    ListsOfOneMore(rows, row, s);
  }

  /** What the loop's local values are to the row. */
  lemma RowMeaning(row: Row, s: Setting, bc: Counts, cc: Counts, sbc: Counts, scc: Counts)
    requires bc == BaselineCounts(row, s) && cc == CurrentCounts(row, s)
    requires sbc == StatCounts(row.b, s.baselineHealthy, s.firstTrialOnly)
             && scc == StatCounts(row.c, s.currentHealthy, s.firstTrialOnly)
    ensures var bf, cf := PassFraction(bc), PassFraction(cc);
            && PairOf(row, s) == Pair(row.c.id, bf, cf, Total(bc), Total(cc), cf - bf)
            && ChangeOf(row, s)
                   == Change(row.c.id, row.b.result.outcome, row.c.result.outcome, bf, cf, TurnsDelta(row.b, row.c))
            && DiffOf(row, s) == PassFraction(scc) - PassFraction(sbc)
            && Flipped(row, s) == (Total(bc) > 0 && bc.pass == Total(bc) && Total(cc) > 0 && cc.pass == 0)
            && Dropped(row, s) == (Total(bc) > 0 && bc.pass == Total(bc) && cf <= s.threshold + EPSILON)
            && Rose(row, s) == (Total(cc) > 0 && cc.pass == Total(cc) && bf <= s.threshold + EPSILON)
  {}

  lemma ListsOfOneMore(rows: seq<Row>, row: Row, s: Setting)
    ensures var was, now := ListsOf(rows, s), ListsOf(rows + [row], s);
            && now.regressions == was.regressions + (if Dropped(row, s) then [ChangeOf(row, s)] else [])
            && now.improvements == was.improvements
                   + (if !Dropped(row, s) && Rose(row, s) then [ChangeOf(row, s)] else [])
            && now.pairs == was.pairs + [PairOf(row, s)]
            && now.flips == was.flips + (if Flipped(row, s) then [row.c.id] else [])
            && now.diffs == was.diffs + [DiffOf(row, s)]
  {
    hide Dropped, Rose, Flipped, PairOf, ChangeOf, DiffOf;
    assert (rows + [row])[..|rows|] == rows;
  }

  method MeanOfFractions(suite: Suite) returns (mean: real)
    ensures mean == MeanFraction(suite)
  {
    hide SumOfFractions, PassFraction, Tally, TrialsOf;
    if |suite.tasks| == 0 {
      return 0.0;
    }
    var tasks, sum := suite.tasks, 0.0;
    FractionsEnd(tasks, suite.requireHealthy);
    for i := 0 to |tasks|
      invariant sum == SumOfFractions(tasks[..i], suite.requireHealthy)
    {
      FractionsOfOneMore(tasks, suite.requireHealthy, i);
      var c := GateCounts(tasks[i].result, suite.requireHealthy);
      sum := sum + PassFraction(c);
    }
    return sum / |tasks| as real;
  }

  lemma FractionsOfOneMore(tasks: seq<Task>, requireHealthy: bool, i: nat)
    requires i < |tasks|
    ensures SumOfFractions(tasks[..i + 1], requireHealthy) ==
            SumOfFractions(tasks[..i], requireHealthy) + PassFraction(Tally(TrialsOf(tasks[i].result), requireHealthy))
  {
    hide PassFraction, Tally, TrialsOf;
    assert tasks[..i + 1][..i] == tasks[..i];
  }

  lemma FractionsEnd(tasks: seq<Task>, requireHealthy: bool)
    ensures SumOfFractions(tasks[..0], requireHealthy) == 0.0 && tasks[..|tasks|] == tasks
  {}

  lemma JoinedOneMore(index: map<string, Task>, tasks: seq<Task>, i: nat)
    requires i < |tasks|
    ensures Joined(index, tasks[..i + 1]) ==
            Joined(index, tasks[..i]) + (if tasks[i].id in index then [Row(index[tasks[i].id], tasks[i])] else [])
  {
    assert tasks[..i + 1][..i] == tasks[..i];
  }

  lemma JoinedEnds(index: map<string, Task>, tasks: seq<Task>, s: Setting)
    ensures ListsOf(Joined(index, tasks[..0]), s) == Lists([], [], [], [], []) && tasks[..|tasks|] == tasks
  {}

  /** Compare. */
  method Compare(baseline: Suite, current: Suite, opts: Options, stats: seq<real> -> Statistics)
      returns (report: Report)
    ensures report == ReportOf(baseline, current, opts, stats)
  {
    hide *;
    var baselineById := IndexByTaskID(baseline.tasks);
    var currentById := IndexByTaskID(current.tasks);
    var baselineOnly := UnpairedIDs(baseline.tasks, currentById);
    var currentOnly := UnpairedIDs(current.tasks, baselineById);
    var s := SettingOf(baseline, current, opts);
    var lists := Lists([], [], [], [], []);
    JoinedEnds(baselineById, current.tasks, s);
    for i := 0 to |current.tasks|
      invariant lists == ListsOf(Joined(baselineById, current.tasks[..i]), s)
    {
      JoinedOneMore(baselineById, current.tasks, i);
      var ct := current.tasks[i];
      ghost var rows := Joined(baselineById, current.tasks[..i]);
      if ct.id !in baselineById {
        assert rows + [] == rows;
        continue;
      }
      lists := Account(Row(baselineById[ct.id], ct), s, lists, rows);
    }
    var baselineRate := MeanOfFractions(baseline);
    var currentRate := MeanOfFractions(current);
    var d := DecideGate(|lists.pairs|, stats(lists.diffs), lists.flips, lists.regressions, baselineOnly,
        opts.warnMargin);
    report := Report(lists.regressions, lists.improvements, lists.pairs, baselineOnly, currentOnly, lists.flips,
                     lists.diffs, currentRate - baselineRate, s.firstTrialOnly, d.gate, d.reasons);
    ReportIs(baseline, current, opts, stats, lists);
  }

  lemma ReportIs(baseline: Suite, current: Suite, opts: Options, stats: seq<real> -> Statistics, lists: Lists)
    requires lists == ListsOf(Joined(Index(baseline.tasks), current.tasks), SettingOf(baseline, current, opts))
    ensures var baselineOnly := SortCompact(AbsentFrom(baseline.tasks, Index(current.tasks)));
            var d := DecideGate(|lists.pairs|, stats(lists.diffs), lists.flips, lists.regressions, baselineOnly,
                opts.warnMargin);
            ReportOf(baseline, current, opts, stats) ==
            Report(lists.regressions, lists.improvements, lists.pairs, baselineOnly,
                   SortCompact(AbsentFrom(current.tasks, Index(baseline.tasks))), lists.flips, lists.diffs,
                   MeanFraction(current) - MeanFraction(baseline), SettingOf(baseline, current, opts).firstTrialOnly,
                   d.gate, d.reasons)
  {
    hide Regressions, Improvements, Flips, SortCompact, AbsentFrom, Index, DecideGate, MeanFraction, Joined, SettingOf;
  }
}
