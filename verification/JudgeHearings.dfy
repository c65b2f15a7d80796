/**
 What a composite's status means under any cancellation: a reference account of which deciding
 sub-judges were heard and which were passed over, without the loop's bookkeeping.
 */
module JudgeHearings {
  import opened JudgeTree

  /** A deciding sub-judge gave its verdict, or was passed over because the context was cancelled. */
  datatype Hearing = Gave(status: Status) | Missed

  /** Verdicts that end a hearing: a pass when any will do, anything else when all must pass. */
  predicate Ends(h: Hearing, requireAny: bool) { h.Gave? && (requireAny <==> h.status.Pass?) }

  /** One sub-judge: what becomes of the state, and what is heard from it. */
  function HearOne<W>(env: Env<W>, sub: Judge, st: State<W>, nonDeciding: bool): (r: (Hearing, State<W>)) {
    var asked := st.(asked := st.asked + 1);
    if env.cancelled(st.asked) then (Missed, asked)
    else
      var r := Evaluate(env, sub, asked, nonDeciding || sub.shadow);
      (Gave(r.0), r.1)
  }

  /** What is heard of the deciding sub-judges, up to and including the one that ends it. Shadows run, unheard. */
  function Hearings<W>(env: Env<W>, subs: seq<Judge>, st: State<W>, requireAny: bool, nonDeciding: bool,
                       ended: bool): (r: (seq<Hearing>, State<W>))
    decreases |subs|
  {
    if subs == [] then ([], st)
    else if ended && !subs[0].shadow then Hearings(env, subs[1..], st, requireAny, nonDeciding, ended)
    else
      var (h, after) := HearOne(env, subs[0], st, nonDeciding);
      if subs[0].shadow then Hearings(env, subs[1..], after, requireAny, nonDeciding, ended)
      else
        var rest := Hearings(env, subs[1..], after, requireAny, nonDeciding, Ends(h, requireAny));
        ([h] + rest.0, rest.1)
  }

  /** The status the hearings call for. */
  function Judgement(heard: seq<Hearing>, requireAny: bool): Status {
    if requireAny then
      if Gave(Pass) in heard then Pass else if Missed in heard || Gave(Error) in heard then Error else Fail
    else
      if Gave(Fail) in heard then Fail else if Missed in heard || Gave(Error) in heard then Error else Pass
  }

  // ---- The loop keeps account of the hearings ----

  /** The loop's variables after these hearings. */
  ghost predicate Accounts<W>(p: Progress<W>, heard: seq<Hearing>, requireAny: bool) {
    && (p.cancelled <==> Missed in heard)
    && (p.errored > 0 <==> Gave(Error) in heard)
    && (p.decider < 0 ==> forall h | h in heard :: !Ends(h, requireAny))
    && (p.decider >= 0 ==>
          && p.decider < |p.details| && p.details[p.decider].Evaluated?
          && Gave(p.details[p.decider].status) in heard
          && Ends(Gave(p.details[p.decider].status), requireAny)
          && forall h | h in heard && Ends(h, requireAny) :: h == Gave(p.details[p.decider].status))
  }

  lemma AccountsGiveJudgement<W>(p: Progress<W>, heard: seq<Hearing>, requireAny: bool)
    requires Accounts(p, heard, requireAny)
    ensures Outcome(p, requireAny) == Judgement(heard, requireAny)
  {}

  lemma {:induction false} SubsAreHeard<W>(env: Env<W>, subs: seq<Judge>, p: Progress<W>, heard: seq<Hearing>,
                                           requireAny: bool, nonDeciding: bool)
    requires Accounts(p, heard, requireAny)
    ensures var r := Hearings(env, subs, p.state, requireAny, nonDeciding, p.decider >= 0);
            var q := EvaluateSubs(env, subs, p, requireAny, nonDeciding);
            Accounts(q, heard + r.0, requireAny) && q.state == r.1
    decreases |subs|
  {
    if subs == [] {
      assert heard + [] == heard;
    } else {
      var q := EvaluateSub(env, subs[0], p, requireAny, nonDeciding);
      var (h, after) := HearOne(env, subs[0], p.state, nonDeciding);
      hide Evaluate;
      if subs[0].shadow || p.decider >= 0 {
        SubUnheard(env, subs[0], p, heard, requireAny, nonDeciding);
        SubsAreHeard(env, subs[1..], q, heard, requireAny, nonDeciding);
      } else {
        SubHeard(env, subs[0], p, heard, requireAny, nonDeciding);
        SubsAreHeard(env, subs[1..], q, heard + [h], requireAny, nonDeciding);
        var rest := Hearings(env, subs[1..], after, requireAny, nonDeciding, Ends(h, requireAny)).0;
        assert heard + [h] + rest == heard + ([h] + rest);
      }
    }
  }

  lemma {:induction false} SubUnheard<W>(env: Env<W>, sub: Judge, p: Progress<W>, heard: seq<Hearing>, requireAny: bool,
                                         nonDeciding: bool)
    requires Accounts(p, heard, requireAny) && (sub.shadow || p.decider >= 0)
    ensures var q := EvaluateSub(env, sub, p, requireAny, nonDeciding);
            && Accounts(q, heard, requireAny) && q.decider == p.decider
            && q.state == if sub.shadow then HearOne(env, sub, p.state, nonDeciding).1 else p.state
  {
    hide Evaluate;
  }

  lemma {:induction false} SubHeard<W>(env: Env<W>, sub: Judge, p: Progress<W>, heard: seq<Hearing>, requireAny: bool,
                                       nonDeciding: bool)
    requires Accounts(p, heard, requireAny) && !sub.shadow && p.decider < 0
    ensures var q := EvaluateSub(env, sub, p, requireAny, nonDeciding);
            var (h, after) := HearOne(env, sub, p.state, nonDeciding);
            && Accounts(q, heard + [h], requireAny) && (q.decider >= 0 <==> Ends(h, requireAny)) && q.state == after
  {
    hide Evaluate;
  }

  // ---- What a composite's status means ----

  /** For every context, cancelled or not, a valid composite's status is the judgement on its hearings. */
  lemma {:induction false} CompositeIsJudged<W>(env: Env<W>, j: Judge, st: State<W>, nonDeciding: bool)
    requires j.kind.Composite? && ValidTree(env, j) && ValidShadow(j, false, false)
    ensures var r := Hearings(env, j.judges, st, j.require == "any", nonDeciding, false);
            Evaluate(env, j, st, nonDeciding) == (Judgement(r.0, j.require == "any"), r.1)
  {
    var p := Progress(st, -1, 0, false, []);
    SubsAreHeard(env, j.judges, p, [], j.require == "any", nonDeciding);
    var r := Hearings(env, j.judges, st, j.require == "any", nonDeciding, false);
    assert [] + r.0 == r.0;
    AccountsGiveJudgement(EvaluateSubs(env, j.judges, p, j.require == "any", nonDeciding), r.0, j.require == "any");
  }

  /** Every deciding sub-judge is heard unless an earlier one ended the hearing. */
  lemma {:induction false} AllAreHeard<W>(env: Env<W>, subs: seq<Judge>, st: State<W>, requireAny: bool,
      nonDeciding: bool)
    ensures var heard := Hearings(env, subs, st, requireAny, nonDeciding, false).0;
            && |heard| <= Deciding(subs)
            && (|heard| < Deciding(subs) ==> heard != [] && Ends(heard[|heard| - 1], requireAny))
            && (forall i | 0 <= i < |heard| - 1 :: !Ends(heard[i], requireAny))
    decreases |subs|
  {
    hide Evaluate;
    if subs != [] {
      DecidingFirst(subs);
      var (h, after) := HearOne(env, subs[0], st, nonDeciding);
      if !subs[0].shadow && Ends(h, requireAny) {
        NothingMore(env, subs[1..], after, requireAny, nonDeciding);
      } else {
        AllAreHeard(env, subs[1..], after, requireAny, nonDeciding);
      }
    }
  }

  lemma {:induction false} NothingMore<W>(env: Env<W>, subs: seq<Judge>, st: State<W>, requireAny: bool,
      nonDeciding: bool)
    ensures Hearings(env, subs, st, requireAny, nonDeciding, true).0 == []
    decreases |subs|
  {
    hide Evaluate;
    if subs != [] {
      NothingMore(env, subs[1..], st, requireAny, nonDeciding);
      NothingMore(env, subs[1..], HearOne(env, subs[0], st, nonDeciding).1, requireAny, nonDeciding);
    }
  }

  lemma {:induction false} DecidingFirst(subs: seq<Judge>)
    requires subs != []
    ensures Deciding(subs) == (if subs[0].shadow then 0 else 1) + Deciding(subs[1..])
    decreases |subs|
  {
    if |subs| == 1 {
      assert subs[..0] == subs[1..] == [];
    } else {
      DecidingFirst(subs[..|subs| - 1]);
      assert subs[..|subs| - 1][1..] == subs[1..][..|subs[1..]| - 1];
    }
  }

  /**
   Under "all" a composite passes exactly when every deciding sub-judge was evaluated and passed;
   under "any" exactly when an evaluated one passed. One that was passed over for cancellation makes
   it an error unless another decided. A valid composite never passes unheard.
   */
  lemma {:induction false} CompositeMeaning<W>(env: Env<W>, j: Judge, st: State<W>, nonDeciding: bool)
    requires j.kind.Composite? && ValidTree(env, j) && ValidShadow(j, false, false)
    ensures var any := j.require == "any";
            var heard := Hearings(env, j.judges, st, any, nonDeciding, false).0;
            var status := Evaluate(env, j, st, nonDeciding).0;
            && heard != []
            && (!any ==> (status.Pass? <==> |heard| == Deciding(j.judges) && forall h | h in heard :: h == Gave(Pass)))
            && (any ==> (status.Pass? <==> Gave(Pass) in heard))
            && (Missed in heard && (forall h | h in heard :: !Ends(h, any)) ==> status.Error?)
            && (!any && (exists h :: h in heard && Ends(h, any)) ==> Gave(status) in heard)
            && (any ==> (status.Fail? <==> |heard| == Deciding(j.judges) && forall h | h in heard :: h == Gave(Fail)))
  {
    var any := j.require == "any";
    var heard := Hearings(env, j.judges, st, any, nonDeciding, false).0;
    CompositeIsJudged(env, j, st, nonDeciding);
    AllAreHeard(env, j.judges, st, any, nonDeciding);
    assert Deciding(j.judges) > 0;
    hide Evaluate, Hearings, ValidTree, ValidShadow, Deciding;
    JudgementMeaning(heard, any, Deciding(j.judges));
  }

  lemma JudgementMeaning(heard: seq<Hearing>, any: bool, n: nat)
    requires 0 < |heard| <= n && (forall i | 0 <= i < |heard| - 1 :: !Ends(heard[i], any))
    requires |heard| < n ==> Ends(heard[|heard| - 1], any)
    ensures var status := Judgement(heard, any);
            && (!any ==> (status.Pass? <==> |heard| == n && forall h | h in heard :: h == Gave(Pass)))
            && (any ==> (status.Pass? <==> Gave(Pass) in heard))
            && (Missed in heard && (forall h | h in heard :: !Ends(h, any)) ==> status.Error?)
            && (!any && (exists h :: h in heard && Ends(h, any)) ==> Gave(status) in heard)
            && (any ==> (status.Fail? <==> |heard| == n && forall h | h in heard :: h == Gave(Fail)))
  {
    assert heard[|heard| - 1] in heard;
  }
}
