/**
 Shadow sub-judges never influence a composite: deleting every shadow subtree of an accepted
 judge tree leaves its status and the final workspace unchanged.
 */
module ShadowIsolation {
  import opened JudgeTree

  // ---- Deleting shadows ----

  function Strip(j: Judge): Judge
    decreases j, 1
  {
    j.(judges := StripAll(j.judges))
  }

  function StripAll(judges: seq<Judge>): (r: seq<Judge>)
    decreases judges, 0
  {
    if judges == [] then []
    else (if judges[0].shadow then [] else [Strip(judges[0])]) + StripAll(judges[1..])
  }

  // ---- Shadows only read ----

  /** No test-command at or below j. */
  predicate ReadOnly(j: Judge) {
    ShadowSafe(j.kind) && forall sub | sub in j.judges :: ReadOnly(sub)
  }

  lemma {:induction false} ShadowedIsReadOnly(j: Judge, topLevel: bool, inShadow: bool)
    requires ValidShadow(j, topLevel, inShadow) && (inShadow || j.shadow)
    ensures ReadOnly(j)
    decreases j
  {
    forall sub | sub in j.judges ensures ReadOnly(sub) {
      ShadowedIsReadOnly(sub, false, true);
    }
  }

  lemma {:induction false} ReadOnlyKeepsWorkspace<W>(env: Env<W>, j: Judge, st: State<W>, nonDeciding: bool)
    requires ReadOnly(j)
    ensures Evaluate(env, j, st, nonDeciding).1.ws == st.ws
    decreases j, 1
  {
    if j.kind.Composite? {
      ReadOnlySubsKeepWorkspace(env, j.judges, Progress(st, -1, 0, false, []), j.require == "any", nonDeciding);
    }
  }

  lemma {:induction false} ReadOnlySubsKeepWorkspace<W>(env: Env<W>, subs: seq<Judge>, p: Progress<W>,
      requireAny: bool, nonDeciding: bool)
    requires forall sub | sub in subs :: ReadOnly(sub)
    ensures EvaluateSubs(env, subs, p, requireAny, nonDeciding).state.ws == p.state.ws
    decreases subs, 0
  {
    if subs != [] {
      ReadOnlyKeepsWorkspace(env, subs[0], Asked(p.state), nonDeciding || subs[0].shadow);
      ReadOnlySubsKeepWorkspace(env, subs[1..], EvaluateSub(env, subs[0], p, requireAny, nonDeciding), requireAny,
          nonDeciding);
    }
  }

  // ---- Stripping keeps a tree valid ----

  lemma {:induction false} StripMembers(judges: seq<Judge>, sub: Judge)
    requires sub in StripAll(judges)
    ensures exists k :: 0 <= k < |judges| && !judges[k].shadow && sub == Strip(judges[k])
  {
    if sub in StripAll(judges[1..]) {
      StripMembers(judges[1..], sub);
      var k :| 0 <= k < |judges[1..]| && !judges[1..][k].shadow && sub == Strip(judges[1..][k]);
      assert judges[k + 1] == judges[1..][k];
    } else {
      assert sub == Strip(judges[0]);
    }
  }

  /** The stripped list is exactly the deciding judges, none of them a shadow. */
  lemma {:induction false} StrippedDecide(judges: seq<Judge>)
    ensures |StripAll(judges)| == Deciding(judges) == Deciding(StripAll(judges))
  {
    if judges != [] {
      StrippedDecide(judges[1..]);
      DecidingCons(judges[0], judges[1..]);
      assert [judges[0]] + judges[1..] == judges;
      if judges[0].shadow {
        assert StripAll(judges) == StripAll(judges[1..]);
      } else {
        DecidingCons(Strip(judges[0]), StripAll(judges[1..]));
      }
    }
  }

  lemma {:induction false} DecidingCons(j: Judge, rest: seq<Judge>)
    ensures Deciding([j] + rest) == (if j.shadow then 0 else 1) + Deciding(rest)
    decreases |rest|
  {
    var all := [j] + rest;
    if rest == [] {
      assert all[..0] == [];
    } else {
      assert all[..|all| - 1] == [j] + rest[..|rest| - 1];
      DecidingCons(j, rest[..|rest| - 1]);
    }
  }

  /** A judge that decides and is valid where it stands. */
  predicate Sound<W>(env: Env<W>, j: Judge) { ValidTree(env, j) && ValidShadow(j, false, false) && !j.shadow }

  lemma {:induction false} StripKeepsValid<W>(env: Env<W>, j: Judge)
    requires ValidTree(env, j) && ValidShadow(j, false, false) && !j.shadow
    ensures ValidTree(env, Strip(j)) && ValidShadow(Strip(j), false, false)
    decreases j
  {
    StrippedDecide(j.judges);
    forall sub | sub in StripAll(j.judges)
      ensures (j.kind.Composite? ==> ValidTree(env, sub)) && ValidShadow(sub, false, false)
    {
      StripMembers(j.judges, sub);
      var k :| 0 <= k < |j.judges| && !j.judges[k].shadow && sub == Strip(j.judges[k]);
      assert j.judges[k] in j.judges;
      if j.kind.Composite? {
        StripKeepsValid(env, j.judges[k]);
      } else {
        StripKeepsShadowRules(j.judges[k]);
      }
    }
  }

  lemma {:induction false} StripKeepsShadowRules(j: Judge)
    requires ValidShadow(j, false, false) && !j.shadow
    ensures ValidShadow(Strip(j), false, false)
    decreases j
  {
    StrippedDecide(j.judges);
    forall sub | sub in StripAll(j.judges) ensures ValidShadow(sub, false, false) {
      StripMembers(j.judges, sub);
      var k :| 0 <= k < |j.judges| && !j.judges[k].shadow && sub == Strip(j.judges[k]);
      assert j.judges[k] in j.judges;
      StripKeepsShadowRules(j.judges[k]);
    }
  }

  // ---- The simulation ----

  ghost predicate NeverCancelled<W>(env: Env<W>) { forall t :: !env.cancelled(t) }

  predicate WellIndexed<W>(p: Progress<W>) {
    p.decider >= 0 ==> p.decider < |p.details| && p.details[p.decider].Evaluated?
  }

  /** The two loops have decided the same, counted the same errors, and left the same workspace. */
  predicate Agree<W(==)>(p: Progress<W>, q: Progress<W>) {
    && WellIndexed(p) && WellIndexed(q)
    && (p.decider >= 0 <==> q.decider >= 0)
    && (p.decider >= 0 ==> p.details[p.decider].status == q.details[q.decider].status)
    && p.errored == q.errored && p.cancelled == q.cancelled && p.state.ws == q.state.ws
  }

  lemma ShadowRoundIsSilent<W>(env: Env<W>, sub: Judge, p: Progress<W>, q: Progress<W>, requireAny: bool,
      nonDeciding: bool)
    requires NeverCancelled(env) && sub.shadow && ReadOnly(sub) && Agree(p, q)
    ensures Agree(EvaluateSub(env, sub, p, requireAny, nonDeciding), q)
  {
    ReadOnlyKeepsWorkspace(env, sub, Asked(p.state), true);
  }

  lemma DecidingRoundsAgree<W>(env: Env<W>, sub: Judge, p: Progress<W>, q: Progress<W>, requireAny: bool)
    requires NeverCancelled(env) && !sub.shadow && Agree(p, q)
    requires var a, b := Evaluate(env, sub, Asked(p.state), false), Evaluate(env, Strip(sub), Asked(q.state), false);
             a.0 == b.0 && a.1.ws == b.1.ws
    ensures Agree(EvaluateSub(env, sub, p, requireAny, false), EvaluateSub(env, Strip(sub), q, requireAny, false))
  {
    hide Evaluate;
  }

  lemma {:induction false} StripAgrees<W>(env: Env<W>, j: Judge, st: State<W>, bare: State<W>)
    requires NeverCancelled(env) && Sound(env, j) && st.ws == bare.ws
    ensures var a, b := Evaluate(env, j, st, false), Evaluate(env, Strip(j), bare, false);
            a.0 == b.0 && a.1.ws == b.1.ws
    decreases j, 1
  {
    if j.kind.Composite? {
      StripKeepsValid(env, j);
      assert forall sub | sub in j.judges :: ValidTree(env, sub) && ValidShadow(sub, false, false);
      StripSubsAgree(env, j.judges, Progress(st, -1, 0, false, []), Progress(bare, -1, 0, false, []),
          j.require == "any");
    }
  }

  lemma {:induction false} StripSubsAgree<W>(env: Env<W>, subs: seq<Judge>, p: Progress<W>, q: Progress<W>,
      requireAny: bool)
    requires NeverCancelled(env) && Agree(p, q)
    requires forall sub | sub in subs :: ValidTree(env, sub) && ValidShadow(sub, false, false)
    ensures Agree(EvaluateSubs(env, subs, p, requireAny, false),
                EvaluateSubs(env, StripAll(subs), q, requireAny, false))
    decreases subs, 0
  {
    hide Agree;
    hide EvaluateSub;
    hide ValidTree;
    hide ValidShadow;
    if subs != [] {
      var sub, rest := subs[0], StripAll(subs[1..]);
      var p' := EvaluateSub(env, sub, p, requireAny, false);
      if sub.shadow {
        ShadowedIsReadOnly(sub, false, false);
        ShadowRoundIsSilent(env, sub, p, q, requireAny, false);
        StripSubsAgree(env, subs[1..], p', q, requireAny);
        assert StripAll(subs) == rest;
      } else {
        SameWorkspace(p, q);
        StripAgrees(env, sub, Asked(p.state), Asked(q.state));
        DecidingRoundsAgree(env, sub, p, q, requireAny);
        StripSubsAgree(env, subs[1..], p', EvaluateSub(env, Strip(sub), q, requireAny, false), requireAny);
        assert StripAll(subs)[0] == Strip(sub) && StripAll(subs)[1..] == rest;
      }
    }
  }

  lemma SameWorkspace<W>(p: Progress<W>, q: Progress<W>)
    requires Agree(p, q)
    ensures Asked(p.state).ws == Asked(q.state).ws
  {}

  /**
   For every tree ValidateTree accepts, and a run that is not cancelled, the tree without its
   shadows reaches the same status in the same final workspace.
   */
  lemma ShadowsNeverDecide<W>(env: Env<W>, j: Judge, st: State<W>)
    requires Accepted(env, j) && NeverCancelled(env)
    ensures var a, b := Evaluate(env, j, st, false), Evaluate(env, Strip(j), st, false);
            a.0 == b.0 && (a.0.Pass? <==> b.0.Pass?) && a.1.ws == b.1.ws
    ensures ValidTree(env, Strip(j)) && ValidShadow(Strip(j), true, false)
  {
    StripAgrees(env, j, st, st);
    StripKeepsValid(env, j);
  }

  // ---- What a composite decides ----

  /** The status of each deciding sub-judge run in order, with no short cut. */
  function Verdicts<W>(env: Env<W>, subs: seq<Judge>, st: State<W>): (r: seq<Status>)
    decreases |subs|
  {
    if subs == [] then []
    else
      var r := Evaluate(env, subs[0], Asked(st), false);
      [r.0] + Verdicts(env, subs[1..], r.1)
  }

  function FirstNonPass(verdicts: seq<Status>): Status {
    if verdicts == [] then Pass else if !verdicts[0].Pass? then verdicts[0] else FirstNonPass(verdicts[1..])
  }

  /** What a list of verdicts means under "all" and under "any". */
  function Meaning(verdicts: seq<Status>, requireAny: bool): Status {
    if !requireAny then FirstNonPass(verdicts)
    else if Pass in verdicts then Pass
    else if Error in verdicts then Error
    else Fail
  }

  lemma {:induction false} DecidedStays<W>(env: Env<W>, subs: seq<Judge>, p: Progress<W>, requireAny: bool)
    requires (forall sub | sub in subs :: !sub.shadow) && WellIndexed(p) && p.decider >= 0
    ensures Outcome(EvaluateSubs(env, subs, p, requireAny, false), requireAny) == p.details[p.decider].status
    decreases |subs|
  {
    if subs != [] {
      DecidedStays(env, subs[1..], EvaluateSub(env, subs[0], p, requireAny, false), requireAny);
    }
  }

  lemma {:induction false} UndecidedContinues<W>(env: Env<W>, subs: seq<Judge>, p: Progress<W>, requireAny: bool)
    requires NeverCancelled(env) && (forall sub | sub in subs :: !sub.shadow) && p.decider < 0 && !p.cancelled
    ensures var verdicts := Verdicts(env, subs, p.state);
            Outcome(EvaluateSubs(env, subs, p, requireAny, false), requireAny) ==
            if requireAny && p.errored > 0 && Pass !in verdicts then Error else Meaning(verdicts, requireAny)
    decreases |subs|
  {
    hide Evaluate;
    if subs != [] {
      var r := Evaluate(env, subs[0], Asked(p.state), false);
      var next := EvaluateSub(env, subs[0], p, requireAny, false);
      var verdicts, rest := Verdicts(env, subs, p.state), Verdicts(env, subs[1..], r.1);
      assert verdicts == [r.0] + rest && verdicts[1..] == rest;
      if Decides(r.0, requireAny) {
        DecidedStays(env, subs[1..], next, requireAny);
      } else {
        UndecidedContinues(env, subs[1..], next, requireAny);
      }
    }
  }

  /**
   Stopping at the first sub-judge that decides gives the status that running every sub-judge would:
   under "all" the first that did not pass, under "any" a pass, else an error, else a fail.
   */
  lemma ShortCircuitMeaning<W>(env: Env<W>, j: Judge, st: State<W>)
    requires NeverCancelled(env) && j.kind.Composite? && Sound(env, j)
    ensures var bare := Strip(j);
            Evaluate(env, j, st, false).0 == Meaning(Verdicts(env, bare.judges, st), j.require == "any")
  {
    StripAgrees(env, j, st, st);
    StripKeepsValid(env, j);
    var bare := Strip(j);
    forall sub | sub in bare.judges ensures !sub.shadow {
      StripMembers(j.judges, sub);
    }
    UndecidedContinues(env, bare.judges, Progress(st, -1, 0, false, []), j.require == "any");
  }
}
