/**
 Models how trials become a task result (eval/runner/trials.go, eval/eval.go), and compares the
 two trials policies. Pass fractions are exact rationals.
 */
module TrialPolicy {
  /** An outcome string; any other than "pass" and "fail" counts as an error. */
  datatype Outcome = Pass | Fail | Error | Other(text: string)

  datatype Health = Healthy | Degraded | Failed | Unrecorded

  datatype Verification = NoVerification | VerificationPassed | VerificationFailed

  /** One run of a task. */
  datatype Trial = Trial(outcome: Outcome, health: Health, verification: Verification, durationMs: int)

  /** voice is the trial whose trace, verdict and error the task reports; -1 describes a split. */
  datatype TaskResult = TaskResult(outcome: Outcome, passFraction: real, trials: seq<Trial>, health: Health,
                                   verification: Verification, durationMs: int, voice: int)

  // ---- Counts ----

  datatype Counts = Counts(pass: nat, fail: nat, error: nat)

  function Total(c: Counts): nat { c.pass + c.fail + c.error }

  function PassFraction(c: Counts): real {
    if Total(c) == 0 then 0.0 else c.pass as real / Total(c) as real
  }

  /** A strict majority, or an error. */
  function Majority(c: Counts): Outcome {
    if 2 * c.pass > Total(c) then Pass else if 2 * c.fail > Total(c) then Fail else Error
  }

  function CountOf(c: Counts, outcome: Outcome): nat {
    match outcome case Pass => c.pass case Fail => c.fail case Error => c.error case Other(_) => 0
  }

  const ZERO := Counts(0, 0, 0)

  function Plus(c: Counts, outcome: Outcome): Counts {
    match outcome
    case Pass => c.(pass := c.pass + 1)
    case Fail => c.(fail := c.fail + 1)
    case _ => c.(error := c.error + 1)
  }

  function GatedOutcome(t: Trial, requireHealthy: bool): Outcome {
    if requireHealthy && t.outcome == Pass && t.health != Healthy then Fail else t.outcome
  }

  /** Whether the comparison gate counts the trial as a pass. */
  predicate GatePasses(t: Trial, requireHealthy: bool) { t.outcome == Pass && (requireHealthy ==> t.health == Healthy) }

  function Tally(trials: seq<Trial>, requireHealthy: bool): (c: Counts) {
    if trials == [] then ZERO
    else Plus(Tally(trials[..|trials| - 1], requireHealthy), GatedOutcome(trials[|trials| - 1], requireHealthy))
  }

  lemma {:induction false} TallyTotal(trials: seq<Trial>, requireHealthy: bool)
    ensures Total(Tally(trials, requireHealthy)) == |trials|
  {
    if trials != [] {
      TallyTotal(trials[..|trials| - 1], requireHealthy);
    }
  }

  /** The trials a result stands for: its own, or itself as the single one. */
  function TrialsOf(t: TaskResult): (trials: seq<Trial>)
    ensures trials != []
  {
    if t.trials == [] then [Trial(t.outcome, t.health, t.verification, t.durationMs)] else t.trials
  }

  method GateCounts(t: TaskResult, requireHealthy: bool) returns (c: Counts)
    ensures c == Tally(TrialsOf(t), requireHealthy)
  {
    hide Plus;
    hide GatedOutcome;
    c := ZERO;
    if |t.trials| == 0 {
      c := Plus(c, GatedOutcome(TrialsOf(t)[0], requireHealthy));
      OneTrial(TrialsOf(t)[0], requireHealthy);
      return;
    }
    for i := 0 to |t.trials|
      invariant c == Tally(t.trials[..i], requireHealthy)
    {
      assert t.trials[..i + 1][..i] == t.trials[..i];
      c := Plus(c, GatedOutcome(t.trials[i], requireHealthy));
    }
    assert t.trials[..|t.trials|] == t.trials;
  }

  function FirstTrialGateCounts(t: TaskResult, requireHealthy: bool): Counts {
    Plus(ZERO, GatedOutcome(TrialsOf(t)[0], requireHealthy))
  }

  predicate SomePasses(trials: seq<Trial>, requireHealthy: bool) {
    exists k | 0 <= k < |trials| :: GatePasses(trials[k], requireHealthy)
  }

  predicate AllPass(trials: seq<Trial>, requireHealthy: bool) {
    forall k | 0 <= k < |trials| :: GatePasses(trials[k], requireHealthy)
  }

  /** The tally counts exactly the trials the gate lets pass. */
  lemma {:induction false} TallyPasses(trials: seq<Trial>, requireHealthy: bool)
    ensures Tally(trials, requireHealthy).pass > 0 <==> SomePasses(trials, requireHealthy)
    ensures Tally(trials, requireHealthy).pass == |trials| <==> AllPass(trials, requireHealthy)
  {
    if trials == [] {
      return;
    } else {
      hide SomePasses;
      hide AllPass;
      var n := |trials| - 1;
      var front := trials[..n];
      TallyPasses(front, requireHealthy);
      PassesAtMost(front, requireHealthy);
      PassesOfOneMore(trials, requireHealthy);
    }
  }

  lemma PassesAtMost(trials: seq<Trial>, requireHealthy: bool)
    ensures Tally(trials, requireHealthy).pass <= |trials|
  {
    TallyTotal(trials, requireHealthy);
    hide Tally;
  }

  lemma PassesOfOneMore(trials: seq<Trial>, requireHealthy: bool)
    requires trials != []
    ensures var front, last := trials[..|trials| - 1], GatePasses(trials[|trials| - 1], requireHealthy);
            && (SomePasses(trials, requireHealthy) <==> SomePasses(front, requireHealthy) || last)
            && (AllPass(trials, requireHealthy) <==> AllPass(front, requireHealthy) && last)
  {
    var n := |trials| - 1;
    var front := trials[..n];
    if SomePasses(front, requireHealthy) {
      var k :| 0 <= k < n && GatePasses(front[k], requireHealthy);
      assert GatePasses(trials[k], requireHealthy);
    }
    if AllPass(trials, requireHealthy) {
      forall k | 0 <= k < n ensures GatePasses(front[k], requireHealthy) {
        assert front[k] == trials[k];
      }
    }
    if AllPass(front, requireHealthy) && GatePasses(trials[n], requireHealthy) {
      forall k | 0 <= k <= n ensures GatePasses(trials[k], requireHealthy) {
        assert k < n ==> front[k] == trials[k];
      }
    }
  }

  // ---- Counting by position ----

  /** The trials whose outcome the gate takes to be this one. */
  function Those(trials: seq<Trial>, outcome: Outcome, requireHealthy: bool): (indices: set<nat>) {
    set i: nat | i < |trials| && GatedOutcome(trials[i], requireHealthy) == outcome
  }

  lemma {:induction false} TallyCounts(trials: seq<Trial>, requireHealthy: bool)
    ensures var c := Tally(trials, requireHealthy);
            && c.pass == |Those(trials, Pass, requireHealthy)| && c.fail == |Those(trials, Fail, requireHealthy)|
            && c.pass + c.fail + c.error == |trials|
  {
    if trials != [] {
      hide GatedOutcome;
      TallyCounts(trials[..|trials| - 1], requireHealthy);
      ThoseOfOneMore(trials, Pass, requireHealthy);
      ThoseOfOneMore(trials, Fail, requireHealthy);
      hide Those;
    }
  }

  lemma ThoseOfOneMore(trials: seq<Trial>, outcome: Outcome, requireHealthy: bool)
    requires trials != []
    ensures var n := |trials| - 1;
            |Those(trials, outcome, requireHealthy)| == |Those(trials[..n], outcome, requireHealthy)|
                + (if GatedOutcome(trials[n], requireHealthy) == outcome then 1 else 0)
  {
    hide GatedOutcome;
    var n := |trials| - 1;
    var was, now := Those(trials[..n], outcome, requireHealthy), Those(trials, outcome, requireHealthy);
    if GatedOutcome(trials[n], requireHealthy) == outcome {
      assert now == was + {n};
    } else {
      assert now == was;
    }
  }

  /** The gate turns a pass without recorded health into a fail when health is required, and changes nothing else. */
  lemma GatedMeaning(t: Trial, requireHealthy: bool)
    ensures GatedOutcome(t, requireHealthy) == Pass <==> GatePasses(t, requireHealthy)
    ensures GatedOutcome(t, requireHealthy) == Fail <==>
              t.outcome == Fail || (t.outcome == Pass && !GatePasses(t, requireHealthy))
    ensures t.outcome != Pass ==> GatedOutcome(t, requireHealthy) == t.outcome
  {}

  /**
   The outcome of several trials: a pass when more than half of them passed, a fail when more than
   half failed, and an error otherwise, a tie included; the fraction is passes over trials.
   */
  lemma MajorityMeaning(trials: seq<Trial>)
    ensures var passed, failed := |Those(trials, Pass, false)|, |Those(trials, Fail, false)|;
            var c := Tally(trials, false);
            && (Majority(c) == Pass <==> 2 * passed > |trials|)
            && (Majority(c) == Fail <==> 2 * failed > |trials|)
            && (Majority(c) == Error <==> 2 * passed <= |trials| && 2 * failed <= |trials|)
            && (trials != [] ==> PassFraction(c) == passed as real / |trials| as real)
            && (2 * passed == |trials| && passed > 0 ==> Majority(c) == Error)
  {
    TallyCounts(trials, false);
    hide Tally, Those;
  }

  // ---- Aggregation ----

  function Rank(h: Health): nat { match h case Healthy => 0 case Degraded => 1 case Failed => 2 case Unrecorded => 2 }

  function WorseHealth(a: Health, b: Health): Health { if Rank(b) > Rank(a) then b else a }

  function CombineVerification(acc: Verification, next: Verification): Verification {
    if acc == VerificationFailed || next == VerificationFailed then VerificationFailed
    else if acc == VerificationPassed || next == VerificationPassed then VerificationPassed
    else NoVerification
  }

  function TotalDuration(trials: seq<Trial>): int {
    if trials == [] then 0 else TotalDuration(trials[..|trials| - 1]) + trials[|trials| - 1].durationMs
  }

  predicate Unwell(h: Health) { h.Failed? || h.Unrecorded? }

  /** h is healthy when all trials are, degraded when some are and none is worse, else the first that is worse. */
  ghost predicate IsWorst(h: Health, trials: seq<Trial>) {
    && (h == Healthy <==> forall t | t in trials :: t.health == Healthy)
    && (h == Degraded <==>
          (exists t | t in trials :: t.health == Degraded) && forall t | t in trials :: !Unwell(t.health))
    && (Unwell(h) ==>
          exists i | 0 <= i < |trials| :: trials[i].health == h && forall j | 0 <= j < i :: !Unwell(trials[j].health))
  }

  /** v is failed when any trial failed, else passed when any passed, else none. */
  ghost predicate IsCombined(v: Verification, trials: seq<Trial>) {
    && (v == VerificationFailed <==> exists t | t in trials :: t.verification == VerificationFailed)
    && (v == NoVerification <==> forall t | t in trials :: t.verification == NoVerification)
  }

  ghost predicate IsFirst(k: int, trials: seq<Trial>, outcome: Outcome) {
    0 <= k < |trials| && trials[k].outcome == outcome && forall i | 0 <= i < k :: trials[i].outcome != outcome
  }

  /** The first trial with the outcome, if the outcome has a strict majority and a trial. */
  ghost predicate IsVoice(voice: int, trials: seq<Trial>, outcome: Outcome) {
    if 2 * CountOf(Tally(trials, false), outcome) > Total(Tally(trials, false)) then
      IsFirst(voice, trials, outcome) || (voice == -1 && forall i | 0 <= i < |trials| :: trials[i].outcome != outcome)
    else voice == -1
  }

  /** aggregateTrials. A single trial stands for itself; several are summarised. */
  method AggregateTrials(runs: seq<Trial>) returns (res: TaskResult)
    ensures res.passFraction == PassFraction(Tally(runs, false))
    ensures |runs| == 1 ==> res.trials == [] && TrialsOf(res) == runs && res.voice == 0
    ensures |runs| != 1 ==> res.trials == runs && Summarises(res, runs)
  {
    hide Tally;
    if |runs| == 1 {
      var r := runs[0];
      res := TaskResult(r.outcome, 0.0, [], r.health, r.verification, r.durationMs, 0);
      assert TrialsOf(res) == runs;
      var c := GateCounts(res, false);
      return res.(passFraction := PassFraction(c));
    }
    res := TaskResult(Error, 0.0, runs, Healthy, NoVerification, 0, -1);
    for i := 0 to |runs|
      invariant res.trials == runs && res.voice == -1
      invariant res.durationMs == TotalDuration(runs[..i])
      invariant IsWorst(res.health, runs[..i]) && IsCombined(res.verification, runs[..i])
    {
      hide *;
      assert runs[..i + 1] == runs[..i] + [runs[i]];
      DurationOfOneMore(runs[..i], runs[i]);
      WorstOfOneMore(res.health, runs[..i], runs[i]);
      CombinedOfOneMore(res.verification, runs[..i], runs[i]);
      res := res.(durationMs := res.durationMs + runs[i].durationMs, health := WorseHealth(res.health, runs[i].health),
                  verification := CombineVerification(res.verification, runs[i].verification));
    }
    assert runs[..|runs|] == runs;
    hide IsWorst;
    hide IsCombined;
    hide TotalDuration;
    hide PassFraction;
    NothingTallied();
    var counts := ZERO;
    if |runs| > 0 {
      counts := GateCounts(res, false);
    }
    hide IsVoice;
    hide Majority;
    res := res.(outcome := Majority(counts), passFraction := PassFraction(counts));
    var voice := Voice(runs, counts, res.outcome);
    res := res.(voice := voice);
  }

  /** The end of aggregateTrials: a strict majority speaks through its first trial. */
  method Voice(runs: seq<Trial>, counts: Counts, outcome: Outcome) returns (voice: int)
    requires counts == Tally(runs, false)
    ensures IsVoice(voice, runs, outcome)
  {
    hide Tally;
    if 2 * CountOf(counts, outcome) <= Total(counts) {
      return -1;
    }
    voice := FirstWith(runs, outcome);
  }

  /** res describes several trials: their majority, sum, worst health, combined verification and voice. */
  ghost predicate Summarises(res: TaskResult, runs: seq<Trial>) {
    && res.outcome == Majority(Tally(runs, false))
    && res.durationMs == TotalDuration(runs)
    && IsWorst(res.health, runs)
    && IsCombined(res.verification, runs)
    && IsVoice(res.voice, runs, res.outcome)
  }

  lemma NothingTallied()
    ensures Tally([], false) == ZERO
  {}

  /** The search of aggregateTrials for a trial to report. */
  method FirstWith(runs: seq<Trial>, outcome: Outcome) returns (k: int)
    ensures k == -1 || IsFirst(k, runs, outcome)
    ensures k == -1 ==> forall i | 0 <= i < |runs| :: runs[i].outcome != outcome
  {
    for i := 0 to |runs|
      invariant forall j | 0 <= j < i :: runs[j].outcome != outcome
    {
      if runs[i].outcome == outcome {
        return i;
      }
    }
    return -1;
  }

  lemma DurationOfOneMore(trials: seq<Trial>, t: Trial)
    ensures TotalDuration(trials + [t]) == TotalDuration(trials) + t.durationMs
  {
    assert (trials + [t])[..|trials|] == trials;
  }

  /** Durations add up over the trials. */
  lemma {:induction false} DurationsAdd(a: seq<Trial>, b: seq<Trial>)
    ensures TotalDuration(a + b) == TotalDuration(a) + TotalDuration(b) && TotalDuration([]) == 0
    ensures |a| == 1 ==> TotalDuration(a) == a[0].durationMs
    decreases |b|
  {
    if b == [] {
      assert a + b == a;
    } else {
      assert (a + b)[..|a + b| - 1] == a + b[..|b| - 1];
      DurationsAdd(a, b[..|b| - 1]);
    }
  }

  lemma WorstOfOneMore(h: Health, trials: seq<Trial>, t: Trial)
    requires IsWorst(h, trials)
    ensures IsWorst(WorseHealth(h, t.health), trials + [t])
  {
    var all := trials + [t];
    assert forall u :: u in all <==> u in trials || u == t;
    if Unwell(h) {
      var i :| 0 <= i < |trials| && trials[i].health == h && forall j | 0 <= j < i :: !Unwell(trials[j].health);
      assert all[i] == trials[i] && trials[i] in trials;
    } else if Unwell(t.health) {
      assert all[|trials|] == t && forall j | 0 <= j < |trials| :: all[j] == trials[j] && trials[j] in trials;
    }
  }

  lemma CombinedOfOneMore(v: Verification, trials: seq<Trial>, t: Trial)
    requires IsCombined(v, trials)
    ensures IsCombined(CombineVerification(v, t.verification), trials + [t])
  {
    assert t in trials + [t];
    assert forall u | u in trials :: u in trials + [t];
  }

  /** suitePassRate. */
  function SumFractions(results: seq<TaskResult>): real {
    if results == [] then 0.0 else SumFractions(results[..|results| - 1]) + results[|results| - 1].passFraction
  }

  function PassRate(results: seq<TaskResult>): real {
    if results == [] then 0.0 else SumFractions(results) / |results| as real
  }

  method SuitePassRate(results: seq<TaskResult>) returns (rate: real)
    ensures rate == PassRate(results)
  {
    if |results| == 0 {
      return 0.0;
    }
    var sum := 0.0;
    for i := 0 to |results|
      invariant sum == SumFractions(results[..i])
    {
      assert results[..i + 1][..i] == results[..i];
      sum := sum + results[i].passFraction;
    }
    assert results[..|results|] == results;
    return sum / |results| as real;
  }

  // ---- Confirm-on-fail against fixed ----

  /** needsConfirmation of a first trial: the gate does not count it as a pass. */
  predicate NeedsConfirmation(first: Trial, requireHealthy: bool) { Tally([first], requireHealthy).pass == 0 }

  /** The trials confirm-on-fail keeps of a task that fixed would run in full. */
  function Confirmed(full: seq<Trial>, requireHealthy: bool): (kept: seq<Trial>)
    requires full != []
  {
    if NeedsConfirmation(full[0], requireHealthy) then full else [full[0]]
  }

  lemma OneTrial(t: Trial, requireHealthy: bool)
    ensures Tally([t], requireHealthy) == Plus(ZERO, GatedOutcome(t, requireHealthy))
  {
    assert [t][..0] == [];
  }

  lemma FractionAtMostOne(c: Counts)
    ensures 0.0 <= PassFraction(c) <= 1.0
  {}

  lemma OnePass()
    ensures PassFraction(Plus(ZERO, Pass)) == 1.0
  {}

  /**
   Of the same trials, confirm-on-fail and fixed agree on the first trial's gate counts and on
   whether any trial passes the gate, and confirm-on-fail's pass fraction, by the judge alone or
   by the gate's rule, is never smaller.
   */
  lemma ConfirmComparesWithFixed(full: seq<Trial>, requireHealthy: bool, fixed: TaskResult, confirmed: TaskResult)
    requires full != [] && TrialsOf(fixed) == full && TrialsOf(confirmed) == Confirmed(full, requireHealthy)
    ensures forall h :: FirstTrialGateCounts(confirmed, h) == FirstTrialGateCounts(fixed, h)
    ensures Tally(TrialsOf(confirmed), requireHealthy).pass == 0 <==> Tally(TrialsOf(fixed), requireHealthy).pass == 0
    ensures PassFraction(Tally(TrialsOf(confirmed), false)) >= PassFraction(Tally(TrialsOf(fixed), false))
    ensures PassFraction(Tally(TrialsOf(confirmed), requireHealthy))
            >= PassFraction(Tally(TrialsOf(fixed), requireHealthy))
  {
    hide PassFraction;
    if !NeedsConfirmation(full[0], requireHealthy) {
      OneTrial(full[0], requireHealthy);
      OneTrial(full[0], false);
      TallyPasses(full, requireHealthy);
      assert GatePasses(full[0], requireHealthy) && SomePasses(full, requireHealthy);
      hide Tally;
      OnePass();
      FractionAtMostOne(Tally(full, false));
      FractionAtMostOne(Tally(full, requireHealthy));
    }
  }

  lemma {:induction false} SumIsMonotone(a: seq<TaskResult>, b: seq<TaskResult>)
    requires |a| == |b| && forall i | 0 <= i < |a| :: a[i].passFraction <= b[i].passFraction
    ensures SumFractions(a) <= SumFractions(b)
  {
    if a != [] {
      SumIsMonotone(a[..|a| - 1], b[..|b| - 1]);
    }
  }

  /** Hence the suite's pass rate under confirm-on-fail is at least the fixed one: the bias the comparison warns of. */
  lemma ConfirmedSuiteRateIsNoSmaller(fixed: seq<TaskResult>, confirmed: seq<TaskResult>, full: seq<seq<Trial>>,
      requireHealthy: bool)
    requires |fixed| == |confirmed| == |full|
    requires forall i | 0 <= i < |full| ::
               && full[i] != [] && TrialsOf(fixed[i]) == full[i]
                  && TrialsOf(confirmed[i]) == Confirmed(full[i], requireHealthy)
               && fixed[i].passFraction == PassFraction(Tally(full[i], false))
               && confirmed[i].passFraction == PassFraction(Tally(Confirmed(full[i], requireHealthy), false))
    ensures PassRate(confirmed) >= PassRate(fixed)
  {
    hide Tally;
    hide PassFraction;
    hide TrialsOf;
    hide Confirmed;
    forall i | 0 <= i < |full| ensures fixed[i].passFraction <= confirmed[i].passFraction {
      ConfirmComparesWithFixed(full[i], requireHealthy, fixed[i], confirmed[i]);
    }
    SumIsMonotone(fixed, confirmed);
    if |full| > 0 {
      MeanIsMonotone(SumFractions(fixed), SumFractions(confirmed), |full| as real);
    }
  }

  lemma MeanIsMonotone(a: real, b: real, n: real)
    requires a <= b && n > 0.0
    ensures a / n <= b / n
  {}
}
