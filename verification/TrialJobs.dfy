/**
 Models the job lists of eval/runner/runner.go: trialJobs for the fixed policy and the first
 confirm-on-fail round, confirmationJobs for the second.
 */
module TrialJobs {
  datatype Job = Job(task: nat, trial: nat)

  /** One trial of each kept task among the first n, in task order. */
  function Row(trial: nat, keep: seq<bool>, n: nat): (jobs: seq<Job>)
    requires n <= |keep|
  {
    if n == 0 then [] else Row(trial, keep, n - 1) + (if keep[n - 1] then [Job(n - 1, trial)] else [])
  }

  /** Trials lo to hi - 1 of each kept task, trial-major. */
  function Rows(lo: nat, hi: nat, keep: seq<bool>): (jobs: seq<Job>)
    decreases hi
  {
    if hi <= lo then [] else Rows(lo, hi - 1, keep) + Row(hi - 1, keep, |keep|)
  }

  function Every(tasks: nat): (keep: seq<bool>)
    ensures |keep| == tasks && forall i :: 0 <= i < tasks ==> keep[i]
  {
    seq(tasks, _ => true)
  }

  method ListTrials(tasks: nat, trials: nat) returns (jobs: seq<Job>)
    ensures jobs == Rows(0, trials, Every(tasks))
  {
    jobs := [];
    for trial := 0 to trials
      invariant jobs == Rows(0, trial, Every(tasks))
    {
      for task := 0 to tasks
        invariant jobs == Rows(0, trial, Every(tasks)) + Row(trial, Every(tasks), task)
      {
        jobs := jobs + [Job(task, trial)];
      }
    }
  }

  method ListConfirmations(needs: seq<bool>, trials: nat) returns (jobs: seq<Job>)
    requires trials >= 1
    ensures jobs == Rows(1, trials, needs)
  {
    jobs := [];
    var trial := 1;
    while trial < trials
      invariant 1 <= trial <= trials
      invariant jobs == Rows(1, trial, needs)
    {
      for task := 0 to |needs|
        invariant jobs == Rows(1, trial, needs) + Row(trial, needs, task)
      {
        if needs[task] {
          jobs := jobs + [Job(task, trial)];
        }
      }
      trial := trial + 1;
    }
  }

  // ---- Each slot is scheduled exactly once ----

  function Count(jobs: seq<Job>, j: Job): (n: nat) {
    if jobs == [] then 0 else Count(jobs[..|jobs| - 1], j) + (if jobs[|jobs| - 1] == j then 1 else 0)
  }

  lemma {:induction false} CountOfConcat(a: seq<Job>, b: seq<Job>, j: Job)
    ensures Count(a + b, j) == Count(a, j) + Count(b, j)
    decreases |b|
  {
    if b == [] {
      assert a + b == a;
    } else {
      assert (a + b)[..|a + b| - 1] == a + b[..|b| - 1];
      CountOfConcat(a, b[..|b| - 1], j);
    }
  }

  lemma {:induction false} CountedIsListed(jobs: seq<Job>, j: Job)
    ensures Count(jobs, j) > 0 <==> j in jobs
  {
    if jobs != [] {
      CountedIsListed(jobs[..|jobs| - 1], j);
    }
  }

  lemma CountNone(j: Job)
    ensures Count([], j) == 0
  {}

  predicate Scheduled(j: Job, lo: nat, hi: nat, keep: seq<bool>) {
    lo <= j.trial < hi && j.task < |keep| && keep[j.task]
  }

  lemma {:induction false} RowCounts(trial: nat, keep: seq<bool>, n: nat, j: Job)
    requires n <= |keep|
    ensures Count(Row(trial, keep, n), j) == if j.trial == trial && j.task < n && keep[j.task] then 1 else 0
  {
    if n > 0 {
      RowCounts(trial, keep, n - 1, j);
      var one := if keep[n - 1] then [Job(n - 1, trial)] else [];
      CountOfConcat(Row(trial, keep, n - 1), one, j);
    }
  }

  /** The list holds every scheduled slot exactly once, and nothing else. */
  lemma {:induction false} RowsCount(lo: nat, hi: nat, keep: seq<bool>, j: Job)
    ensures Count(Rows(lo, hi, keep), j) == if Scheduled(j, lo, hi, keep) then 1 else 0
    decreases hi
  {
    hide Count;
    if hi <= lo {
      CountNone(j);
    } else {
      RowsCount(lo, hi - 1, keep, j);
      RowCounts(hi - 1, keep, |keep|, j);
      CountOfConcat(Rows(lo, hi - 1, keep), Row(hi - 1, keep, |keep|), j);
    }
  }
}
