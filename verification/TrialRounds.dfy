/**
 Models runTasksConcurrently (eval/runner/runner.go) over the worker protocol: one round under
 the fixed policy, two under confirm-on-fail, and what both policies make of the same trials.
 */
module TrialRounds {
  import opened TrialJobs
  import opened TrialScheduler
  import opened TrialPolicy

  // ---- Slots ----

  /** One row of empty slots for each task. */
  function Unrun<R>(tasks: nat, trials: nat): (runs: Runs<R>)
    ensures |runs| == tasks
    ensures forall i | 0 <= i < tasks :: |runs[i]| == trials && forall k | 0 <= k < trials :: runs[i][k].Empty?
  {
    seq(tasks, _ => seq(trials, _ => Empty))
  }

  /** The rows of the tasks to confirm grow to the full number of trials. */
  function Grown<R>(runs: Runs<R>, needs: seq<bool>, trials: nat): (grown: Runs<R>)
    requires |needs| == |runs| && trials >= 1
    ensures |grown| == |runs|
    ensures forall i | 0 <= i < |runs| ::
              grown[i] == if needs[i] then runs[i] + seq(trials - 1, _ => Empty) else runs[i]
  {
    seq(|runs|, i requires 0 <= i < |runs| => if needs[i] then runs[i] + seq(trials - 1, _ => Empty) else runs[i])
  }

  ghost predicate AllFilled<R>(runs: Runs<R>) {
    forall j | InRange(runs, j) :: !runs[j.task][j.trial].Empty?
  }

  lemma RowsInRange<R>(runs: Runs<R>, lo: nat, hi: nat, keep: seq<bool>)
    requires |keep| == |runs| && forall i | 0 <= i < |runs| :: keep[i] ==> hi <= |runs[i]|
    ensures forall j | j in Rows(lo, hi, keep) :: InRange(runs, j)
  {
    forall j | j in Rows(lo, hi, keep) ensures InRange(runs, j) {
      RowsCount(lo, hi, keep, j);
      CountedIsListed(Rows(lo, hi, keep), j);
    }
  }

  lemma RowsList(lo: nat, hi: nat, keep: seq<bool>, j: Job)
    ensures j in Rows(lo, hi, keep) <==> Scheduled(j, lo, hi, keep)
  {
    RowsCount(lo, hi, keep, j);
    CountedIsListed(Rows(lo, hi, keep), j);
  }

  /** The final state of one round: reached from its start, and returned. */
  ghost predicate Round<R(!new)>(jobs: seq<Job>, concurrency: int, begun: Runs<R>, cancelled: bool,
      actions: seq<Action<R>>, s: System<R>) {
    Reaches(Start(jobs, concurrency, begun, cancelled), jobs, actions, s) && s.dispatcher.Returned?
  }

  /** Under the fixed policy every slot is written exactly once, whatever the schedule and cancellation. */
  lemma FixedRoundFillsAll<R(!new)>(tasks: nat, trials: nat, concurrency: int, cancelled: bool,
      actions: seq<Action<R>>, s: System<R>)
    requires Round(Rows(0, trials, Every(tasks)), concurrency, Unrun<R>(tasks, trials), cancelled, actions, s)
    ensures SameShape(Unrun<R>(tasks, trials), s.runs) && AllFilled(s.runs)
    ensures forall j :: s.writes[j] == if InRange(s.runs, j) then 1 else 0
  {
    var jobs, begun := Rows(0, trials, Every(tasks)), Unrun<R>(tasks, trials);
    RowsInRange(begun, 0, trials, Every(tasks));
    ReturnedRunIsComplete(jobs, concurrency, begun, cancelled, actions, s);
    hide Round;
    hide Count;
    hide Rows;
    forall j ensures s.writes[j] == (if InRange(s.runs, j) then 1 else 0) && (InRange(s.runs, j) ==> j in jobs) {
      RowsCount(0, trials, Every(tasks), j);
      RowsList(0, trials, Every(tasks), j);
    }
  }

  /**
   Across both confirm-on-fail rounds, under any schedules and with cancellation at any point of
   either, every slot of the final rows is filled and was written exactly once.
   */
  lemma TwoRoundsFillAll<R(!new)>(tasks: nat, trials: nat, needs: seq<bool>, concurrency: int, cancelled: bool,
                                  actions1: seq<Action<R>>, s1: System<R>, actions2: seq<Action<R>>, s2: System<R>)
    requires trials >= 1 && |needs| == tasks
    requires Round(Rows(0, 1, Every(tasks)), concurrency, Unrun<R>(tasks, 1), cancelled, actions1, s1)
    requires |s1.runs| == tasks
             && Round(Rows(1, trials, needs), concurrency, Grown(s1.runs, needs, trials), s1.cancelled, actions2, s2)
    ensures SameShape(Grown(s1.runs, needs, trials), s2.runs) && AllFilled(s2.runs)
    ensures forall j :: s1.writes[j] + s2.writes[j] == if InRange(s2.runs, j) then 1 else 0
    ensures forall i | 0 <= i < tasks :: s1.runs[i] != [] && s2.runs[i] != [] && s2.runs[i][0] == s1.runs[i][0]
  {
    FixedRoundFillsAll(tasks, 1, concurrency, cancelled, actions1, s1);
    hide Round;
    SecondRoundFillsRest(s1.runs, trials, needs, concurrency, s1.cancelled, actions2, s2);
    forall j ensures s1.writes[j] + s2.writes[j] == if InRange(s2.runs, j) then 1 else 0 {
      GrownRow(s1.runs, needs, trials, j);
    }
  }

  lemma SecondRoundFillsRest<R(!new)>(firsts: Runs<R>, trials: nat, needs: seq<bool>, concurrency: int, cancelled: bool,
                                      actions: seq<Action<R>>, s: System<R>)
    requires trials >= 1 && |needs| == |firsts| && AllFilled(firsts) && forall i | 0 <= i < |firsts| :: |firsts[i]| == 1
    requires Round(Rows(1, trials, needs), concurrency, Grown(firsts, needs, trials), cancelled, actions, s)
    ensures SameShape(Grown(firsts, needs, trials), s.runs) && AllFilled(s.runs)
    ensures forall j :: s.writes[j] == if Scheduled(j, 1, trials, needs) then 1 else 0
    ensures forall i | 0 <= i < |firsts| :: s.runs[i] != [] && s.runs[i][0] == firsts[i][0]
  {
    var begun, jobs := Grown(firsts, needs, trials), Rows(1, trials, needs);
    RowsInRange(begun, 1, trials, needs);
    ReturnedRunIsComplete(jobs, concurrency, begun, cancelled, actions, s);
    hide Round;
    hide Count;
    hide Rows;
    forall j ensures s.writes[j] == if Scheduled(j, 1, trials, needs) then 1 else 0 {
      RowsCount(1, trials, needs, j);
    }
    forall j | InRange(s.runs, j)
      ensures !s.runs[j.task][j.trial].Empty? && (j.trial == 0 ==> s.runs[j.task][j.trial] == firsts[j.task][0])
    {
      RowsList(1, trials, needs, j);
      GrownRow(firsts, needs, trials, j);
      assert InRange(begun, j);
    }
    forall i | 0 <= i < |firsts| ensures s.runs[i] != [] && s.runs[i][0] == firsts[i][0] {
      assert InRange(s.runs, Job(i, 0));
    }
  }

  /** Which slots the second round adds to rows of one. */
  lemma GrownRow<R>(runs: Runs<R>, needs: seq<bool>, trials: nat, j: Job)
    requires |needs| == |runs| && trials >= 1 && forall i | 0 <= i < |runs| :: |runs[i]| == 1
    ensures InRange(Grown(runs, needs, trials), j) <==> InRange(runs, j) || Scheduled(j, 1, trials, needs)
    ensures InRange(runs, j) ==> j.trial == 0 && Grown(runs, needs, trials)[j.task][j.trial] == runs[j.task][j.trial]
  {}

  // ---- The same trials under both policies ----

  /** Never cancelled, with each finished trial's result the oracle's. */
  ghost predicate Undisturbed<R(!new)>(s: System<R>, jobs: seq<Job>, oracle: Job -> R, actions: seq<Action<R>>)
    decreases |actions|
  {
    actions == [] ||
    (&& Enabled(s, jobs, actions[0]) && !actions[0].Cancel?
     && (actions[0].Finish? ==> actions[0].result == oracle(s.workers[actions[0].worker].job))
     && Undisturbed(Next(s, jobs, actions[0]), jobs, oracle, actions[1..]))
  }

  ghost predicate Faithful<R>(s: System<R>, begun: Runs<R>, oracle: Job -> R) {
    && !s.cancelled && !s.dispatcher.Draining? && SameShape(begun, s.runs)
    && forall j | InRange(begun, j) ::
      s.runs[j.task][j.trial] == if j in s.writes then Ran(oracle(j)) else begun[j.task][j.trial]
  }

  lemma FinishIsFaithful<R>(s: System<R>, jobs: seq<Job>, begun: Runs<R>, oracle: Job -> R, a: Action<R>)
    requires Faithful(s, begun, oracle) && Enabled(s, jobs, a) && a.Finish?
             && a.result == oracle(s.workers[a.worker].job)
    ensures Faithful(Next(s, jobs, a), begun, oracle)
  {
    var s', job := Next(s, jobs, a), s.workers[a.worker].job;
    forall j | InRange(begun, j)
      ensures s'.runs[j.task][j.trial] == if j in s'.writes then Ran(oracle(j)) else begun[j.task][j.trial]
    {
      if j.task == job.task && j.trial == job.trial {
        assert j == job;
      }
    }
  }

  lemma OtherActionIsFaithful<R>(s: System<R>, jobs: seq<Job>, begun: Runs<R>, oracle: Job -> R, a: Action<R>)
    requires Faithful(s, begun, oracle) && Enabled(s, jobs, a) && !a.Cancel? && !a.Finish?
    ensures Faithful(Next(s, jobs, a), begun, oracle)
  {}

  lemma {:induction false} UndisturbedIsFaithful<R(!new)>(s: System<R>, jobs: seq<Job>, begun: Runs<R>,
      oracle: Job -> R,
                                                          actions: seq<Action<R>>, s': System<R>)
    requires Faithful(s, begun, oracle) && Undisturbed(s, jobs, oracle, actions) && Reaches(s, jobs, actions, s')
    ensures Faithful(s', begun, oracle)
    decreases |actions|
  {
    hide Faithful;
    if actions != [] {
      if actions[0].Finish? {
        FinishIsFaithful(s, jobs, begun, oracle, actions[0]);
      } else {
        OtherActionIsFaithful(s, jobs, begun, oracle, actions[0]);
      }
      UndisturbedIsFaithful(Next(s, jobs, actions[0]), jobs, begun, oracle, actions[1..], s');
    }
  }

  lemma UndisturbedRound<R(!new)>(jobs: seq<Job>, concurrency: int, begun: Runs<R>, oracle: Job -> R,
      actions: seq<Action<R>>, s: System<R>)
    requires forall j | j in jobs :: InRange(begun, j)
    requires Round(jobs, concurrency, begun, false, actions, s)
             && Undisturbed(Start(jobs, concurrency, begun, false), jobs, oracle, actions)
    ensures !s.cancelled && SameShape(begun, s.runs)
    ensures forall j | InRange(begun, j) ::
              s.runs[j.task][j.trial] == if j in jobs then Ran(oracle(j)) else begun[j.task][j.trial]
  {
    UndisturbedIsFaithful(Start(jobs, concurrency, begun, false), jobs, begun, oracle, actions, s);
    ReturnedRunIsComplete(jobs, concurrency, begun, false, actions, s);
    forall j ensures j in s.writes <==> j in jobs {
      CountedIsListed(jobs, j);
    }
  }

  /** A row holds the oracle's first n trials of the task. */
  ghost predicate HoldsTrials(row: seq<Slot<Trial>>, task: nat, n: nat, oracle: Job -> Trial) {
    |row| == n && forall k | 0 <= k < n :: row[k] == Ran(oracle(Job(task, k)))
  }

  /** A round that ended without cancellation and recorded the oracle's results. */
  ghost predicate CleanRound(jobs: seq<Job>, concurrency: int, begun: Runs<Trial>, oracle: Job -> Trial,
      actions: seq<Action<Trial>>, s: System<Trial>) {
    Round(jobs, concurrency, begun, false, actions, s)
    && Undisturbed(Start(jobs, concurrency, begun, false), jobs, oracle, actions)
  }

  lemma FixedRows(tasks: nat, trials: nat, concurrency: int, oracle: Job -> Trial, actions: seq<Action<Trial>>,
      s: System<Trial>)
    requires CleanRound(Rows(0, trials, Every(tasks)), concurrency, Unrun(tasks, trials), oracle, actions, s)
    ensures |s.runs| == tasks && !s.cancelled && forall i | 0 <= i < tasks :: HoldsTrials(s.runs[i], i, trials, oracle)
  {
    var jobs, begun := Rows(0, trials, Every(tasks)), Unrun<Trial>(tasks, trials);
    RowsInRange(begun, 0, trials, Every(tasks));
    UndisturbedRound(jobs, concurrency, begun, oracle, actions, s);
    hide Round;
    hide Undisturbed;
    forall i, k | 0 <= i < tasks && 0 <= k < trials ensures s.runs[i][k] == Ran(oracle(Job(i, k))) {
      RowsList(0, trials, Every(tasks), Job(i, k));
      assert InRange(begun, Job(i, k));
    }
  }

  /** The tasks whose first trial the gate does not count as a pass. */
  ghost predicate IsNeeds(needs: seq<bool>, oracle: Job -> Trial, requireHealthy: bool) {
    forall i | 0 <= i < |needs| :: needs[i] == NeedsConfirmation(oracle(Job(i, 0)), requireHealthy)
  }

  lemma ConfirmedRows(tasks: nat, trials: nat, needs: seq<bool>, concurrency: int, oracle: Job -> Trial,
                      actions1: seq<Action<Trial>>, s1: System<Trial>, actions2: seq<Action<Trial>>, s2: System<Trial>)
    requires trials >= 1 && |needs| == tasks
    requires CleanRound(Rows(0, 1, Every(tasks)), concurrency, Unrun(tasks, 1), oracle, actions1, s1)
             && |s1.runs| == tasks
    requires CleanRound(Rows(1, trials, needs), concurrency, Grown(s1.runs, needs, trials), oracle, actions2, s2)
    ensures |s2.runs| == tasks
    ensures forall i | 0 <= i < tasks :: HoldsTrials(s2.runs[i], i, if needs[i] then trials else 1, oracle)
  {
    FixedRows(tasks, 1, concurrency, oracle, actions1, s1);
    var jobs, begun := Rows(1, trials, needs), Grown(s1.runs, needs, trials);
    RowsInRange(begun, 1, trials, needs);
    UndisturbedRound(jobs, concurrency, begun, oracle, actions2, s2);
    hide Round;
    hide Undisturbed;
    forall i | 0 <= i < tasks ensures HoldsTrials(s2.runs[i], i, if needs[i] then trials else 1, oracle) {
      assert HoldsTrials(s1.runs[i], i, 1, oracle);
      forall k | 0 <= k < |begun[i]| ensures s2.runs[i][k] == Ran(oracle(Job(i, k))) {
        RowsList(1, trials, needs, Job(i, k));
        assert InRange(begun, Job(i, k));
      }
    }
  }

  /** The trials of a row of finished slots. */
  function TrialsIn(row: seq<Slot<Trial>>): (trials: seq<Trial>)
    requires forall k | 0 <= k < |row| :: row[k].Ran?
    ensures |trials| == |row| && forall k | 0 <= k < |row| :: trials[k] == row[k].result
  {
    seq(|row|, k requires 0 <= k < |row| => row[k].result)
  }

  /** A confirm-on-fail row is what the policy keeps of the fixed policy's row. */
  lemma RowsCompare(task: nat, trials: nat, oracle: Job -> Trial, requireHealthy: bool, fixed: seq<Slot<Trial>>,
      confirmed: seq<Slot<Trial>>)
    requires trials >= 1 && HoldsTrials(fixed, task, trials, oracle)
    requires var kept := if NeedsConfirmation(oracle(Job(task, 0)), requireHealthy) then trials else 1;
             HoldsTrials(confirmed, task, kept, oracle)
    ensures TrialsIn(fixed) != [] && TrialsIn(confirmed) == Confirmed(TrialsIn(fixed), requireHealthy)
  {
    hide NeedsConfirmation;
    var full := TrialsIn(fixed);
    assert full[0] == oracle(Job(task, 0));
    assert TrialsIn(confirmed) == Confirmed(full, requireHealthy);
  }

  /** result is what aggregateTrials makes of the row. */
  ghost predicate Aggregates(result: TaskResult, row: seq<Slot<Trial>>) {
    && (forall k | 0 <= k < |row| :: row[k].Ran?)
    && (row != [] ==> TrialsOf(result) == TrialsIn(row))
    && result.passFraction == PassFraction(Tally(TrialsIn(row), false))
  }

  lemma RowsPoliciesCompare(tasks: nat, trials: nat, requireHealthy: bool, oracle: Job -> Trial, needs: seq<bool>,
                        fixedRows: Runs<Trial>, confirmedRows: Runs<Trial>, fixed: seq<TaskResult>,
                            confirmed: seq<TaskResult>)
    requires trials >= 1 && |fixedRows| == |confirmedRows| == |needs| == |fixed| == |confirmed| == tasks
    requires IsNeeds(needs, oracle, requireHealthy)
    requires forall i | 0 <= i < tasks ::
               && HoldsTrials(fixedRows[i], i, trials, oracle)
               && HoldsTrials(confirmedRows[i], i, if needs[i] then trials else 1, oracle)
               && Aggregates(fixed[i], fixedRows[i]) && Aggregates(confirmed[i], confirmedRows[i])
    ensures forall i | 0 <= i < tasks ::
              && (forall h :: FirstTrialGateCounts(confirmed[i], h) == FirstTrialGateCounts(fixed[i], h))
              && (Tally(TrialsOf(confirmed[i]), requireHealthy).pass == 0 <==>
                    Tally(TrialsOf(fixed[i]), requireHealthy).pass == 0)
              && confirmed[i].passFraction >= fixed[i].passFraction
    ensures PassRate(confirmed) >= PassRate(fixed)
  {
    var full := seq(tasks, i requires 0 <= i < tasks => TrialsOf(fixed[i]));
    hide NeedsConfirmation;
    hide PassFraction;
    hide Tally;
    hide FirstTrialGateCounts;
    hide PassRate;
    hide TrialsOf;
    hide Confirmed;
    forall i | 0 <= i < tasks
      ensures (forall h :: FirstTrialGateCounts(confirmed[i], h) == FirstTrialGateCounts(fixed[i], h))
              && (Tally(TrialsOf(confirmed[i]), requireHealthy).pass == 0 <==>
                    Tally(TrialsOf(fixed[i]), requireHealthy).pass == 0)
              && confirmed[i].passFraction >= fixed[i].passFraction
      ensures full[i] != [] && TrialsOf(confirmed[i]) == Confirmed(full[i], requireHealthy)
      ensures fixed[i].passFraction == PassFraction(Tally(full[i], false))
      ensures confirmed[i].passFraction == PassFraction(Tally(Confirmed(full[i], requireHealthy), false))
    {
      RowsCompare(i, trials, oracle, requireHealthy, fixedRows[i], confirmedRows[i]);
      ConfirmComparesWithFixed(full[i], requireHealthy, fixed[i], confirmed[i]);
    }
    ConfirmedSuiteRateIsNoSmaller(fixed, confirmed, full, requireHealthy);
  }

  /**
   Any complete, uncancelled run of the fixed policy and any of confirm-on-fail, on any schedules
   and numbers of workers, over the same per-trial outcomes: every task has the same first-trial
   gate counts and the same answer to whether no trial passes the gate, its pass fraction under
   confirm-on-fail is at least the fixed one, and so is the suite's pass rate.
   */
  lemma PoliciesCompare(tasks: nat, trials: nat, requireHealthy: bool, oracle: Job -> Trial, needs: seq<bool>,
                        concurrency: int, actions: seq<Action<Trial>>, s: System<Trial>,
                        concurrency': int, actions1: seq<Action<Trial>>, s1: System<Trial>,
                            actions2: seq<Action<Trial>>, s2: System<Trial>,
                        fixed: seq<TaskResult>, confirmed: seq<TaskResult>)
    requires trials >= 1 && |needs| == |fixed| == |confirmed| == tasks && IsNeeds(needs, oracle, requireHealthy)
    requires CleanRound(Rows(0, trials, Every(tasks)), concurrency, Unrun(tasks, trials), oracle, actions, s)
    requires CleanRound(Rows(0, 1, Every(tasks)), concurrency', Unrun(tasks, 1), oracle, actions1, s1)
             && |s1.runs| == tasks
    requires CleanRound(Rows(1, trials, needs), concurrency', Grown(s1.runs, needs, trials), oracle, actions2, s2)
    requires |s.runs| == |s2.runs| == tasks
    requires forall i | 0 <= i < tasks :: Aggregates(fixed[i], s.runs[i]) && Aggregates(confirmed[i], s2.runs[i])
    ensures forall i | 0 <= i < tasks ::
              && (forall h :: FirstTrialGateCounts(confirmed[i], h) == FirstTrialGateCounts(fixed[i], h))
              && (Tally(TrialsOf(confirmed[i]), requireHealthy).pass == 0 <==>
                    Tally(TrialsOf(fixed[i]), requireHealthy).pass == 0)
              && confirmed[i].passFraction >= fixed[i].passFraction
    ensures PassRate(confirmed) >= PassRate(fixed)
  {
    hide *;
    FixedRows(tasks, trials, concurrency, oracle, actions, s);
    ConfirmedRows(tasks, trials, needs, concurrency', oracle, actions1, s1, actions2, s2);
    RowsPoliciesCompare(tasks, trials, requireHealthy, oracle, needs, s.runs, s2.runs, fixed, confirmed);
  }
}
