/**
 Models runTrialJobs and the two rounds of runTasksConcurrently (eval/runner/runner.go) as a
 state machine: a dispatcher offering jobs on an unbuffered channel, workers that run them and
 write their slots in place, and a context that may be cancelled at any point.
 */
module TrialScheduler {
  import opened TrialJobs

  /** A slot of runs[task][trial]. */
  datatype Slot<R> = Empty | Ran(result: R) | CancelledSlot

  type Runs<R> = seq<seq<Slot<R>>>

  datatype Worker = Idle | Busy(job: Job) | Exited

  /** next is the index of the first job not yet handed over. */
  datatype Dispatcher = Offering(next: nat) | Draining(next: nat) | Closed | Returned

  /** writes records every write to a slot. */
  datatype System<R> = System(dispatcher: Dispatcher, workers: seq<Worker>, cancelled: bool, runs: Runs<R>,
      writes: multiset<Job>)

  datatype Action<R> =
    | Cancel
    | Receive(worker: nat)
    | Finish(worker: nat, result: R)
    | SeeCancelled
    | WriteCancelled
    | Close
    | Exit(worker: nat)
    | Return

  predicate InRange<R>(runs: Runs<R>, j: Job) { j.task < |runs| && j.trial < |runs[j.task]| }

  function SetSlot<R>(runs: Runs<R>, j: Job, v: Slot<R>): Runs<R>
    requires InRange(runs, j)
  {
    runs[j.task := runs[j.task][j.trial := v]]
  }

  /** min(max(concurrency, 1), |jobs|) workers, and no job handed over. */
  function Workers(concurrency: int, jobs: nat): (n: nat)
    ensures n <= jobs && (n == jobs || n == if concurrency > 1 then concurrency else 1)
    ensures n <= if concurrency > 1 then concurrency else 1
  {
    var wanted := if concurrency > 1 then concurrency else 1;
    if wanted < jobs then wanted else jobs
  }

  function Start<R>(jobs: seq<Job>, concurrency: int, runs: Runs<R>, cancelled: bool): System<R> {
    System(Offering(0), seq(Workers(concurrency, |jobs|), _ => Idle), cancelled, runs, multiset{})
  }

  /** Which actions are possible; a select with both cases ready may take either. */
  predicate Enabled<R>(s: System<R>, jobs: seq<Job>, a: Action<R>) {
    match a
    case Cancel => !s.cancelled
    case Receive(w) => s.dispatcher.Offering? && s.dispatcher.next < |jobs| && w < |s.workers| && s.workers[w].Idle?
    case Finish(w, _) => w < |s.workers| && s.workers[w].Busy? && InRange(s.runs, s.workers[w].job)
    case SeeCancelled => s.dispatcher.Offering? && s.dispatcher.next < |jobs| && s.cancelled
    case WriteCancelled => s.dispatcher.Draining? && s.dispatcher.next < |jobs|
        && InRange(s.runs, jobs[s.dispatcher.next])
    case Close => (s.dispatcher.Offering? || s.dispatcher.Draining?) && s.dispatcher.next == |jobs|
    case Exit(w) => s.dispatcher.Closed? && w < |s.workers| && s.workers[w].Idle?
    case Return => s.dispatcher.Closed? && forall w | 0 <= w < |s.workers| :: s.workers[w].Exited?
  }

  function Written<R>(s: System<R>, j: Job, v: Slot<R>): System<R>
    requires InRange(s.runs, j)
  {
    s.(runs := SetSlot(s.runs, j, v), writes := s.writes + multiset{j})
  }

  function Next<R>(s: System<R>, jobs: seq<Job>, a: Action<R>): System<R>
    requires Enabled(s, jobs, a)
  {
    match a
    case Cancel => s.(cancelled := true)
    case Receive(w) => s.(dispatcher := Offering(s.dispatcher.next + 1),
        workers := s.workers[w := Busy(jobs[s.dispatcher.next])])
    case Finish(w, result) => Written(s, s.workers[w].job, Ran(result)).(workers := s.workers[w := Idle])
    case SeeCancelled => s.(dispatcher := Draining(s.dispatcher.next))
    case WriteCancelled =>
      Written(s, jobs[s.dispatcher.next], CancelledSlot).(dispatcher := Draining(s.dispatcher.next + 1))
    case Close => s.(dispatcher := Closed)
    case Exit(w) => s.(workers := s.workers[w := Exited])
    case Return => s.(dispatcher := Returned)
  }

  // ---- The invariant ----

  /** How many workers are running j. */
  function Flying(workers: seq<Worker>, j: Job): (n: nat) {
    if workers == [] then 0
    else Flying(workers[..|workers| - 1], j) + (if workers[|workers| - 1] == Busy(j) then 1 else 0)
  }

  /** How many workers are running anything. */
  function InFlight(workers: seq<Worker>): (n: nat)
    ensures n <= |workers|
  {
    if workers == [] then 0 else InFlight(workers[..|workers| - 1]) + (if workers[|workers| - 1].Busy? then 1 else 0)
  }

  /** The jobs that have left the dispatcher, into a worker or into a cancellation. */
  function Handed(d: Dispatcher, jobs: seq<Job>): (r: seq<Job>) {
    if (d.Offering? || d.Draining?) && d.next <= |jobs| then jobs[..d.next] else jobs
  }

  predicate SameShape<R>(a: Runs<R>, b: Runs<R>) { |a| == |b| && forall i | 0 <= i < |a| :: |a[i]| == |b[i]| }

  /** Exactly the written slots have changed, and each of them is filled. */
  ghost predicate Tracks<R>(begun: Runs<R>, s: System<R>) {
    && SameShape(begun, s.runs)
    && forall j | InRange(begun, j) ::
      if j in s.writes then !s.runs[j.task][j.trial].Empty? else s.runs[j.task][j.trial] == begun[j.task][j.trial]
  }

  /** Every job handed over is being run or has been written, once for each time it was handed over. */
  ghost predicate Conserved<R>(jobs: seq<Job>, s: System<R>) {
    forall j: Job :: s.writes[j] + Flying(s.workers, j) == Count(Handed(s.dispatcher, jobs), j)
  }

  /** The dispatcher has not closed the channel yet. */
  predicate Feeding(d: Dispatcher) { d.Offering? || d.Draining? }

  predicate NextIsJob(d: Dispatcher, jobs: seq<Job>) { Feeding(d) ==> d.next <= |jobs| }

  /** Workers exit only once the channel is closed, and all have when the call returns. */
  predicate ExitsInOrder(d: Dispatcher, workers: seq<Worker>) {
    && (d.Returned? ==> forall w | 0 <= w < |workers| :: workers[w].Exited?)
    && (Feeding(d) ==> forall w | 0 <= w < |workers| :: !workers[w].Exited?)
  }

  ghost predicate Inv<R>(begun: Runs<R>, jobs: seq<Job>, s: System<R>) {
    && NextIsJob(s.dispatcher, jobs)
    && Conserved(jobs, s)
    && Tracks(begun, s)
    && (forall j | j in jobs :: InRange(begun, j))
    && ExitsInOrder(s.dispatcher, s.workers)
  }

  lemma {:induction false} FlyingUpdate(workers: seq<Worker>, w: nat, v: Worker, j: Job)
    requires w < |workers|
    ensures Flying(workers[w := v], j) + (if workers[w] == Busy(j) then 1 else 0)
            == Flying(workers, j) + (if v == Busy(j) then 1 else 0)
  {
    var last := |workers| - 1;
    if w < last {
      assert workers[w := v][..last] == workers[..last][w := v];
      FlyingUpdate(workers[..last], w, v, j);
    } else {
      assert workers[w := v][..last] == workers[..last];
    }
  }

  lemma {:induction false} FlyingIdle(workers: seq<Worker>, j: Job)
    requires forall w | 0 <= w < |workers| :: !workers[w].Busy?
    ensures Flying(workers, j) == 0
  {
    if workers != [] {
      FlyingIdle(workers[..|workers| - 1], j);
    }
  }

  lemma WriteKeepsTracks<R>(begun: Runs<R>, s: System<R>, j: Job, v: Slot<R>)
    requires Tracks(begun, s) && InRange(s.runs, j) && !v.Empty?
    ensures Tracks(begun, Written(s, j, v))
  {
    var s' := Written(s, j, v);
    forall k | InRange(begun, k)
      ensures if k in s'.writes then !s'.runs[k.task][k.trial].Empty?
              else s'.runs[k.task][k.trial] == begun[k.task][k.trial]
    {
      if k.task == j.task && k.trial == j.trial {
        assert k == j;
      }
    }
  }

  lemma StartInv<R>(jobs: seq<Job>, concurrency: int, runs: Runs<R>, cancelled: bool)
    requires forall j | j in jobs :: InRange(runs, j)
    ensures Inv(runs, jobs, Start(jobs, concurrency, runs, cancelled))
  {
    var s := Start(jobs, concurrency, runs, cancelled);
    assert jobs[..0] == [];
    forall j: Job ensures s.writes[j] + Flying(s.workers, j) == Count(Handed(s.dispatcher, jobs), j) {
      FlyingIdle(s.workers, j);
    }
  }

  lemma TracksIgnoresWorkers<R>(begun: Runs<R>, s: System<R>, s': System<R>)
    requires Tracks(begun, s) && s'.runs == s.runs && s'.writes == s.writes
    ensures Tracks(begun, s')
  {}

  lemma OneMoreHanded(jobs: seq<Job>, n: nat, j: Job)
    requires n < |jobs|
    ensures Count(jobs[..n + 1], j) == Count(jobs[..n], j) + (if jobs[n] == j then 1 else 0)
  {
    assert jobs[..n + 1][..n] == jobs[..n];
  }

  lemma {:induction false} ConservedNext<R>(jobs: seq<Job>, s: System<R>, a: Action<R>, j: Job)
    requires Conserved(jobs, s) && Enabled(s, jobs, a) && NextIsJob(s.dispatcher, jobs)
    ensures var s' := Next(s, jobs, a); s'.writes[j] + Flying(s'.workers, j) == Count(Handed(s'.dispatcher, jobs), j)
  {
    hide Flying, Count, InRange, SetSlot;
    match a
    case Receive(w) =>
      FlyingUpdate(s.workers, w, Busy(jobs[s.dispatcher.next]), j);
      OneMoreHanded(jobs, s.dispatcher.next, j);
    case Finish(w, _) => FlyingUpdate(s.workers, w, Idle, j);
    case WriteCancelled => OneMoreHanded(jobs, s.dispatcher.next, j);
    case Exit(w) => FlyingUpdate(s.workers, w, Exited, j);
    case _ => assert jobs[..|jobs|] == jobs;
  }

  lemma TracksNext<R>(begun: Runs<R>, jobs: seq<Job>, s: System<R>, a: Action<R>)
    requires Tracks(begun, s) && Enabled(s, jobs, a)
    ensures Tracks(begun, Next(s, jobs, a))
  {
    hide Tracks;
    if a.Finish? {
      var j := s.workers[a.worker].job;
      WriteKeepsTracks(begun, s, j, Ran(a.result));
      TracksIgnoresWorkers(begun, Written(s, j, Ran(a.result)), Next(s, jobs, a));
    } else if a.WriteCancelled? {
      var j := jobs[s.dispatcher.next];
      WriteKeepsTracks(begun, s, j, CancelledSlot);
      TracksIgnoresWorkers(begun, Written(s, j, CancelledSlot), Next(s, jobs, a));
    } else {
      TracksIgnoresWorkers(begun, s, Next(s, jobs, a));
    }
  }

  lemma ActionKeepsInv<R>(begun: Runs<R>, jobs: seq<Job>, s: System<R>, a: Action<R>)
    requires Inv(begun, jobs, s) && Enabled(s, jobs, a)
    ensures Inv(begun, jobs, Next(s, jobs, a))
  {
    hide Tracks, Conserved, NextIsJob, ExitsInOrder, Next, Enabled;
    TracksNext(begun, jobs, s, a);
    ConservationNext(jobs, s, a);
    DispatcherNext(jobs, s, a);
    WorkersNext(jobs, s, a);
  }

  lemma ConservationNext<R>(jobs: seq<Job>, s: System<R>, a: Action<R>)
    requires Conserved(jobs, s) && Enabled(s, jobs, a) && NextIsJob(s.dispatcher, jobs)
    ensures Conserved(jobs, Next(s, jobs, a))
  {
    hide Flying, Count, Next, Enabled, NextIsJob, Handed;
    var s' := Next(s, jobs, a);
    forall j: Job ensures s'.writes[j] + Flying(s'.workers, j) == Count(Handed(s'.dispatcher, jobs), j) {
      ConservedNext(jobs, s, a, j);
    }
  }

  lemma DispatcherNext<R>(jobs: seq<Job>, s: System<R>, a: Action<R>)
    requires NextIsJob(s.dispatcher, jobs) && Enabled(s, jobs, a)
    ensures NextIsJob(Next(s, jobs, a).dispatcher, jobs)
  {
    hide InRange, SetSlot;
  }

  lemma WorkersNext<R>(jobs: seq<Job>, s: System<R>, a: Action<R>)
    requires ExitsInOrder(s.dispatcher, s.workers) && Enabled(s, jobs, a)
    ensures ExitsInOrder(Next(s, jobs, a).dispatcher, Next(s, jobs, a).workers)
  {
    hide InRange, SetSlot;
  }

  /** The slots that the next writes may go to: those of running jobs, and of the next one to be drained. */
  ghost predicate WritesInRange<R>(s: System<R>, jobs: seq<Job>) {
    && (forall w | 0 <= w < |s.workers| && s.workers[w].Busy? :: InRange(s.runs, s.workers[w].job))
    && (s.dispatcher.Draining? && s.dispatcher.next < |jobs| ==> InRange(s.runs, jobs[s.dispatcher.next]))
  }

  lemma WritesStayInRange<R>(begun: Runs<R>, jobs: seq<Job>, s: System<R>)
    requires Inv(begun, jobs, s)
    ensures WritesInRange(s, jobs)
  {
    hide Flying, Count, Handed;
    assert forall j :: InRange(begun, j) == InRange(s.runs, j);
    forall w | 0 <= w < |s.workers| && s.workers[w].Busy? ensures InRange(s.runs, s.workers[w].job) {
      BusyJobIsListed(jobs, s, w);
    }
    if s.dispatcher.Draining? && s.dispatcher.next < |jobs| {
      assert jobs[s.dispatcher.next] in jobs;
    }
  }

  lemma BusyJobIsListed<R>(jobs: seq<Job>, s: System<R>, w: nat)
    requires Conserved(jobs, s) && w < |s.workers| && s.workers[w].Busy?
    ensures s.workers[w].job in jobs
  {
    hide Flying, Count, Handed;
    BusyIsInFlight(s.workers, w);
    HandedIsPart(s.dispatcher, jobs, s.workers[w].job);
    CountedIsListed(jobs, s.workers[w].job);
  }

  ghost predicate Reaches<R(!new)>(s: System<R>, jobs: seq<Job>, actions: seq<Action<R>>, s': System<R>)
    decreases |actions|
  {
    if actions == [] then s' == s
    else Enabled(s, jobs, actions[0]) && Reaches(Next(s, jobs, actions[0]), jobs, actions[1..], s')
  }

  lemma {:induction false} ReachableInv<R(!new)>(begun: Runs<R>, jobs: seq<Job>, s: System<R>, actions: seq<Action<R>>,
      s': System<R>)
    requires Inv(begun, jobs, s) && Reaches(s, jobs, actions, s')
    ensures Inv(begun, jobs, s') && |s'.workers| == |s.workers|
    decreases |actions|
  {
    hide Inv;
    if actions != [] {
      ActionKeepsInv(begun, jobs, s, actions[0]);
      ReachableInv(begun, jobs, Next(s, jobs, actions[0]), actions[1..], s');
    }
  }

  /**
   Under every schedule and every point of cancellation: no write, done or about to be done, is
   out of range or to a slot nobody scheduled, no scheduled slot is written more often than it is
   listed, and never more than the capped number of trials is in flight.
   */
  lemma EveryRunIsSafe<R(!new)>(jobs: seq<Job>, concurrency: int, runs: Runs<R>, cancelled: bool,
      actions: seq<Action<R>>, s: System<R>)
    requires (forall j | j in jobs :: InRange(runs, j))
             && Reaches(Start(jobs, concurrency, runs, cancelled), jobs, actions, s)
    ensures SameShape(runs, s.runs) && WritesInRange(s, jobs) && forall j: Job :: s.writes[j] <= Count(jobs, j)
    ensures InFlight(s.workers) <= Workers(concurrency, |jobs|) <= if concurrency > 1 then concurrency else 1
  {
    StartInv(jobs, concurrency, runs, cancelled);
    ReachableInv(runs, jobs, Start(jobs, concurrency, runs, cancelled), actions, s);
    WritesStayInRange(runs, jobs, s);
    forall j: Job ensures s.writes[j] <= Count(jobs, j) {
      HandedIsPart(s.dispatcher, jobs, j);
    }
  }

  function BusyOnes(workers: seq<Worker>): (busy: set<nat>) { set w: nat | w < |workers| && workers[w].Busy? }

  /** The number in flight is the number of busy workers. */
  lemma {:induction false} InFlightMeaning(workers: seq<Worker>)
    ensures InFlight(workers) == |BusyOnes(workers)|
  {
    if workers != [] {
      var n := |workers| - 1;
      var was, now := BusyOnes(workers[..n]), BusyOnes(workers);
      InFlightMeaning(workers[..n]);
      assert now == if workers[n].Busy? then was + {n} else was;
    }
  }

  lemma HandedIsPart(d: Dispatcher, jobs: seq<Job>, j: Job)
    ensures Count(Handed(d, jobs), j) <= Count(jobs, j)
  {
    if (d.Offering? || d.Draining?) && d.next <= |jobs| {
      assert jobs == jobs[..d.next] + jobs[d.next..];
      CountOfConcat(jobs[..d.next], jobs[d.next..], j);
    }
  }

  /**
   At return each listed slot has been written exactly as often as it is listed, and is filled; no
   other slot changed.
   */
  lemma ReturnedRunIsComplete<R(!new)>(jobs: seq<Job>, concurrency: int, runs: Runs<R>, cancelled: bool,
      actions: seq<Action<R>>, s: System<R>)
    requires (forall j | j in jobs :: InRange(runs, j))
             && Reaches(Start(jobs, concurrency, runs, cancelled), jobs, actions, s)
    requires s.dispatcher.Returned?
    ensures SameShape(runs, s.runs) && forall j: Job :: s.writes[j] == Count(jobs, j)
    ensures forall j | InRange(runs, j) ::
              if j in jobs then !s.runs[j.task][j.trial].Empty? else s.runs[j.task][j.trial] == runs[j.task][j.trial]
  {
    StartInv(jobs, concurrency, runs, cancelled);
    ReachableInv(runs, jobs, Start(jobs, concurrency, runs, cancelled), actions, s);
    forall j: Job ensures s.writes[j] == Count(jobs, j) && (j in s.writes <==> j in jobs) {
      FlyingIdle(s.workers, j);
      CountedIsListed(jobs, j);
    }
  }

  // ---- Every run ends ----

  function WorkLeft(workers: seq<Worker>): (n: nat) {
    if workers == [] then 0
    else
      WorkLeft(workers[..|workers| - 1])
      + (match workers[|workers| - 1] case Busy(_) => 2 case Idle => 1 case Exited => 0)
  }

  function Variant<R>(s: System<R>, jobs: nat): int {
    (if s.cancelled then 0 else 1) + WorkLeft(s.workers)
    + match s.dispatcher
      case Offering(n) => 4 * (jobs - n) + 3
      case Draining(n) => 4 * (jobs - n) + 2
      case Closed => 1
      case Returned => 0
  }

  lemma {:induction false} WorkLeftUpdate(workers: seq<Worker>, w: nat, v: Worker)
    requires w < |workers|
    ensures WorkLeft(workers[w := v]) + (match workers[w] case Busy(_) => 2 case Idle => 1 case Exited => 0)
            == WorkLeft(workers) + (match v case Busy(_) => 2 case Idle => 1 case Exited => 0)
  {
    var last := |workers| - 1;
    if w < last {
      assert workers[w := v][..last] == workers[..last][w := v];
      WorkLeftUpdate(workers[..last], w, v);
    } else {
      assert workers[w := v][..last] == workers[..last];
    }
  }

  lemma ActionMakesProgress<R>(s: System<R>, jobs: seq<Job>, a: Action<R>)
    requires Enabled(s, jobs, a)
    ensures Variant(Next(s, jobs, a), |jobs|) < Variant(s, |jobs|)
  {
    match a
    case Receive(w) => WorkLeftUpdate(s.workers, w, Busy(jobs[s.dispatcher.next]));
    case Finish(w, _) => WorkLeftUpdate(s.workers, w, Idle);
    case Exit(w) => WorkLeftUpdate(s.workers, w, Exited);
    case _ =>
  }

  lemma VariantIsNatural<R>(begun: Runs<R>, jobs: seq<Job>, s: System<R>)
    requires Inv(begun, jobs, s)
    ensures Variant(s, |jobs|) >= 0
  {}

  /** No run is longer than the variant of its start. */
  lemma {:induction false} RunsAreBounded<R(!new)>(begun: Runs<R>, jobs: seq<Job>, s: System<R>,
      actions: seq<Action<R>>, s': System<R>)
    requires Inv(begun, jobs, s) && Reaches(s, jobs, actions, s')
    ensures |actions| <= Variant(s, |jobs|)
    decreases |actions|
  {
    hide Inv;
    VariantIsNatural(begun, jobs, s);
    if actions != [] {
      ActionMakesProgress(s, jobs, actions[0]);
      ActionKeepsInv(begun, jobs, s, actions[0]);
      RunsAreBounded(begun, jobs, Next(s, jobs, actions[0]), actions[1..], s');
    }
  }

  lemma {:induction false} BusyIsInFlight(workers: seq<Worker>, w: nat)
    requires w < |workers| && workers[w].Busy?
    ensures Flying(workers, workers[w].job) > 0
  {
    if w < |workers| - 1 {
      BusyIsInFlight(workers[..|workers| - 1], w);
    }
  }

  /** Until it returns, some participant can act, even with the context never cancelled. */
  lemma NoDeadlock<R(!new)>(begun: Runs<R>, jobs: seq<Job>, s: System<R>, result: R)
    requires Inv(begun, jobs, s) && !s.dispatcher.Returned? && (jobs != [] ==> |s.workers| > 0)
    ensures exists a: Action<R> :: !a.Cancel? && Enabled(s, jobs, a)
  {
    if exists w :: 0 <= w < |s.workers| && s.workers[w].Busy? {
      var w :| 0 <= w < |s.workers| && s.workers[w].Busy?;
      WritesStayInRange(begun, jobs, s);
      assert Enabled(s, jobs, Finish(w, result));
    } else if s.dispatcher.Closed? {
      if exists w :: 0 <= w < |s.workers| && s.workers[w].Idle? {
        var w :| 0 <= w < |s.workers| && s.workers[w].Idle?;
        assert Enabled<R>(s, jobs, Exit(w));
      } else {
        assert Enabled<R>(s, jobs, Return);
      }
    } else if s.dispatcher.next == |jobs| {
      assert Enabled<R>(s, jobs, Close);
    } else if s.dispatcher.Offering? {
      assert s.workers[0].Idle?;
      assert Enabled<R>(s, jobs, Receive(0));
    } else {
      assert jobs[s.dispatcher.next] in jobs;
      assert Enabled<R>(s, jobs, WriteCancelled);
    }
  }

  /** From the start on, until it returns, some participant can act without a cancellation. */
  lemma NeverStuck<R(!new)>(jobs: seq<Job>, concurrency: int, runs: Runs<R>, cancelled: bool, actions: seq<Action<R>>,
                            s: System<R>, result: R)
    requires (forall j | j in jobs :: InRange(runs, j))
             && Reaches(Start(jobs, concurrency, runs, cancelled), jobs, actions, s)
    requires !s.dispatcher.Returned?
    ensures exists a: Action<R> :: !a.Cancel? && Enabled(s, jobs, a)
  {
    StartInv(jobs, concurrency, runs, cancelled);
    ReachableInv(runs, jobs, Start(jobs, concurrency, runs, cancelled), actions, s);
    hide Inv;
    NoDeadlock(runs, jobs, s, result);
  }

  lemma {:induction false} ReachesMore<R(!new)>(s: System<R>, jobs: seq<Job>, first: seq<Action<R>>, t: System<R>,
                                               a: Action<R>)
    requires Reaches(s, jobs, first, t) && Enabled(t, jobs, a)
    ensures Reaches(s, jobs, first + [a], Next(t, jobs, a))
    decreases |first|
  {
    if first == [] {
      assert [a][1..] == [];
      assert Reaches(Next(t, jobs, a), jobs, [], Next(t, jobs, a));
    } else {
      ReachesMore(Next(s, jobs, first[0]), jobs, first[1..], t, a);
      assert (first + [a])[1..] == first[1..] + [a];
    }
  }

  /**
   Every run returns: no run from the start is longer than a bound, and one that has not returned
   can always be continued without a cancellation. So one that cannot be continued has returned.
   */
  lemma EveryRunReturns<R(!new)>(jobs: seq<Job>, concurrency: int, runs: Runs<R>, cancelled: bool,
                                 actions: seq<Action<R>>, s: System<R>, result: R)
    requires (forall j | j in jobs :: InRange(runs, j))
             && Reaches(Start(jobs, concurrency, runs, cancelled), jobs, actions, s)
    ensures |actions| <= 4 * |jobs| + Workers(concurrency, |jobs|) + 4
    ensures (forall a: Action<R> | Enabled(s, jobs, a) :: a.Cancel?) ==> s.dispatcher.Returned?
  {
    var start := Start(jobs, concurrency, runs, cancelled);
    StartInv(jobs, concurrency, runs, cancelled);
    RunsAreBounded(runs, jobs, start, actions, s);
    IdleWorkLeft(start.workers);
    if !s.dispatcher.Returned? {
      NeverStuck(jobs, concurrency, runs, cancelled, actions, s, result);
    }
  }

  lemma {:induction false} IdleWorkLeft(workers: seq<Worker>)
    requires forall w | 0 <= w < |workers| :: workers[w].Idle?
    ensures WorkLeft(workers) == |workers|
  {
    if workers != [] {
      IdleWorkLeft(workers[..|workers| - 1]);
    }
  }

  /** From every reached state some schedule without a further cancellation returns. */
  lemma {:induction false} CanReturn<R(!new)>(jobs: seq<Job>, concurrency: int, runs: Runs<R>, cancelled: bool,
                                              actions: seq<Action<R>>, s: System<R>, result: R)
      returns (more: seq<Action<R>>, end: System<R>)
    requires (forall j | j in jobs :: InRange(runs, j))
             && Reaches(Start(jobs, concurrency, runs, cancelled), jobs, actions, s)
    ensures Reaches(Start(jobs, concurrency, runs, cancelled), jobs, actions + more, end)
    ensures end.dispatcher.Returned? && forall a | a in more :: !a.Cancel?
    decreases 4 * |jobs| + Workers(concurrency, |jobs|) + 4 - |actions|
  {
    hide Reaches, Next, Enabled, InRange, Start;
    more, end := [], s;
    assert actions + [] == actions;
    if !s.dispatcher.Returned? {
      NeverStuck(jobs, concurrency, runs, cancelled, actions, s, result);
      var a: Action<R> :| !a.Cancel? && Enabled(s, jobs, a);
      ReachesMore(Start(jobs, concurrency, runs, cancelled), jobs, actions, s, a);
      EveryRunReturns(jobs, concurrency, runs, cancelled, actions + [a], Next(s, jobs, a), result);
      more, end := CanReturn(jobs, concurrency, runs, cancelled, actions + [a], Next(s, jobs, a), result);
      assert actions + [a] + more == actions + ([a] + more);
      more := [a] + more;
    }
  }
}
