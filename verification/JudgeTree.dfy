/**
 Models the judge tree of eval/judge/judge.go and types/eval.go: static validation, evaluation
 of composites with short-circuiting, and shadow sub-judges, which are evaluated and recorded
 but must never influence the outcome. Evaluation threads the workspace, which only a
 test-command may change.
 */
module JudgeTree {
  datatype Kind = TestCommand | FileExists | FileContains | DiffReview | ToolTrace | Composite | Unknown(name: string)

  datatype Status = Pass | Fail | Error

  /** fields stands for a judge's own parameters; decision for an llm block naming that provider. */
  datatype Judge = Judge(kind: Kind, fields: string, decision: bool, judges: seq<Judge>, require: string, shadow: bool)

  /** The run being judged: static checks, the effect of commands, read-only judges, and cancellation. */
  datatype Env<!W> = Env(
    fieldsOk: (Kind, string) -> bool,
    command: (string, W) -> (Status, W),
    inspect: (Kind, string, W, bool) -> Status,
    cancelled: nat -> bool)

  /** The workspace, and how often the context has been asked whether it is cancelled. */
  datatype State<W> = State(ws: W, asked: nat)

  // ---- Validation ----

  /** validateTree and validateComposite. */
  predicate ValidTree<W>(env: Env<W>, j: Judge) {
    && !j.kind.Unknown? && env.fieldsOk(j.kind, j.fields)
    && (j.kind.Composite? ==>
          && j.judges != [] && (j.require == "" || j.require == "all" || j.require == "any")
          && forall sub | sub in j.judges :: ValidTree(env, sub))
  }

  predicate ShadowSafe(k: Kind) { k.FileExists? || k.FileContains? || k.DiffReview? || k.ToolTrace? || k.Composite? }

  function Deciding(judges: seq<Judge>): (n: nat) {
    if judges == [] then 0 else Deciding(judges[..|judges| - 1]) + (if judges[|judges| - 1].shadow then 0 else 1)
  }

  /** EvalJudge.validateShadow. */
  predicate ValidShadow(j: Judge, topLevel: bool, inShadow: bool) {
    && !(topLevel && j.shadow)
    && (inShadow || j.shadow ==> ShadowSafe(j.kind))
    && (j.decision ==> j.shadow)
    && (forall sub | sub in j.judges :: ValidShadow(sub, false, inShadow || j.shadow))
    && (j.kind.Composite? && j.judges != [] ==> Deciding(j.judges) > 0)
  }

  method CheckShadow(j: Judge, topLevel: bool, inShadow: bool) returns (ok: bool)
    ensures ok <==> ValidShadow(j, topLevel, inShadow)
    decreases j
  {
    if topLevel && j.shadow {
      return false;
    }
    var shadowed := inShadow || j.shadow;
    if shadowed && !ShadowSafe(j.kind) {
      return false;
    }
    if j.decision && !j.shadow {
      return false;
    }
    var deciding := 0;
    for i := 0 to |j.judges|
      invariant forall k | 0 <= k < i :: ValidShadow(j.judges[k], false, shadowed)
      invariant deciding == Deciding(j.judges[..i])
    {
      assert j.judges[..i + 1][..i] == j.judges[..i];
      var sub := j.judges[i];
      assert sub in j.judges;
      var subOk := CheckShadow(sub, false, shadowed);
      if !subOk {
        return false;
      }
      if !sub.shadow {
        deciding := deciding + 1;
      }
    }
    assert j.judges[..|j.judges|] == j.judges;
    return !(j.kind.Composite? && |j.judges| > 0 && deciding == 0);
  }

  /** ValidateTree: what is checked of a task's judge before any run. */
  predicate Accepted<W>(env: Env<W>, j: Judge) { ValidTree(env, j) && ValidShadow(j, true, false) }

  // ---- Evaluation ----

  /** A sub-judge's entry in a composite's details. */
  datatype Detail = Evaluated(status: Status) | Shadowed(verdict: Status) | Skipped

  /** decider is the index of the sub-judge that decided, or -1; errored counts deciding errors. */
  datatype Progress<W> = Progress(state: State<W>, decider: int, errored: nat, cancelled: bool, details: seq<Detail>)

  /** Whether an evaluated sub-judge decides: a pass under "any", anything else under "all". */
  predicate Decides(status: Status, requireAny: bool) { if requireAny then status.Pass? else !status.Pass? }

  function Evaluate<W>(env: Env<W>, j: Judge, st: State<W>, nonDeciding: bool): (r: (Status, State<W>))
    decreases j, 1
  {
    if j.kind.Composite? then EvaluateComposite(env, j, st, nonDeciding)
    else if j.kind.Unknown? || !env.fieldsOk(j.kind, j.fields) then (Error, st)
    else if j.kind.TestCommand? then
      var r := env.command(j.fields, st.ws);
      (r.0, st.(ws := r.1))
    else (env.inspect(j.kind, j.fields, st.ws, nonDeciding), st)
  }

  function EvaluateComposite<W>(env: Env<W>, j: Judge, st: State<W>, nonDeciding: bool): (r: (Status, State<W>))
    decreases j, 0
  {
    if !ValidTree(env, j) || !ValidShadow(j, false, false) then (Error, st)
    else
      var p := EvaluateSubs(env, j.judges, Progress(st, -1, 0, false, []), j.require == "any", nonDeciding);
      (Outcome(p, j.require == "any"), p.state)
  }

  /** The loop of evaluateComposite. */
  function EvaluateSubs<W>(env: Env<W>, subs: seq<Judge>, p: Progress<W>, requireAny: bool,
      nonDeciding: bool): (r: Progress<W>)
    decreases subs, 0
  {
    if subs == [] then p
    else EvaluateSubs(env, subs[1..], EvaluateSub(env, subs[0], p, requireAny, nonDeciding), requireAny, nonDeciding)
  }

  /** One round of that loop. */
  function EvaluateSub<W>(env: Env<W>, sub: Judge, p: Progress<W>, requireAny: bool,
      nonDeciding: bool): (r: Progress<W>)
    decreases sub, 2
  {
    if p.decider >= 0 && !sub.shadow then p.(details := p.details + [Skipped])
    else if env.cancelled(p.state.asked) then
      p.(state := Asked(p.state), cancelled := p.cancelled || !sub.shadow, details := p.details + [Skipped])
    else Recorded(p, sub.shadow, Evaluate(env, sub, Asked(p.state), nonDeciding || sub.shadow), requireAny)
  }

  function Asked<W>(st: State<W>): State<W> { st.(asked := st.asked + 1) }

  function Recorded<W>(p: Progress<W>, shadow: bool, r: (Status, State<W>), requireAny: bool): Progress<W> {
    if shadow then p.(state := r.1, details := p.details + [Shadowed(r.0)])
    else
      Progress(r.1, if Decides(r.0, requireAny) then |p.details| else p.decider,
               if r.0.Error? then p.errored + 1 else p.errored, p.cancelled, p.details + [Evaluated(r.0)])
  }

  function Outcome<W>(p: Progress<W>, requireAny: bool): Status {
    if p.cancelled && p.decider < 0 then Error
    else if 0 <= p.decider < |p.details| && p.details[p.decider].Evaluated? then p.details[p.decider].status
    else if requireAny && p.errored > 0 then Error
    else if requireAny then Fail
    else Pass
  }

  method RunJudge<W>(env: Env<W>, j: Judge, st: State<W>, nonDeciding: bool) returns (status: Status, after: State<W>)
    ensures (status, after) == Evaluate(env, j, st, nonDeciding)
    decreases j, 1
  {
    if j.kind.Composite? {
      status, after := RunComposite(env, j, st, nonDeciding);
    } else if j.kind.Unknown? || !env.fieldsOk(j.kind, j.fields) {
      return Error, st;
    } else if j.kind.TestCommand? {
      var r := env.command(j.fields, st.ws);
      return r.0, st.(ws := r.1);
    } else {
      return env.inspect(j.kind, j.fields, st.ws, nonDeciding), st;
    }
  }

  method RunComposite<W>(env: Env<W>, j: Judge, st: State<W>, nonDeciding: bool)
      returns (status: Status, after: State<W>)
    requires j.kind.Composite?
    ensures (status, after) == Evaluate(env, j, st, nonDeciding)
    decreases j, 0
  {
    var shadowOk := CheckShadow(j, false, false);
    if !ValidTree(env, j) || !shadowOk {
      return Error, st;
    }
    var p := RunSubs(env, j.judges, st, j.require == "any", nonDeciding);
    after := p.state;
    if p.cancelled && p.decider < 0 {
      status := Error;
    } else if p.decider >= 0 {
      status := p.details[p.decider].status;
    } else if j.require == "any" && p.errored > 0 {
      status := Error;
    } else if j.require == "any" {
      status := Fail;
    } else {
      status := Pass;
    }
  }

  /** The loop of evaluateComposite over its decider, errored, cancelled and details variables. */
  method RunSubs<W>(env: Env<W>, subs: seq<Judge>, st: State<W>, requireAny: bool, nonDeciding: bool)
      returns (p: Progress<W>)
    ensures p == EvaluateSubs(env, subs, Progress(st, -1, 0, false, []), requireAny, nonDeciding)
    ensures p.decider >= 0 ==> p.decider < |p.details| && p.details[p.decider].Evaluated?
    decreases subs, 0
  {
    hide Evaluate, EvaluateSubs;
    var state, details: seq<Detail> := st, [];
    var decider, errored, cancelled := -1, 0, false;
    ghost var goal := EvaluateSubs(env, subs, Progress(st, -1, 0, false, []), requireAny, nonDeciding);
    assert subs[0..] == subs;
    for i := 0 to |subs|
      invariant |details| == i && -1 <= decider < i && (decider >= 0 ==> details[decider].Evaluated?) && 0 <= errored
      invariant EvaluateSubs(env, subs[i..], Progress(state, decider, errored, cancelled, details), requireAny,
                    nonDeciding) == goal
    {
      var sub := subs[i];
      ghost var before := Progress(state, decider, errored, cancelled, details);
      OneSub(env, subs, i, before, requireAny, nonDeciding);
      ghost var next := EvaluateSub(env, sub, before, requireAny, nonDeciding);
      if decider >= 0 && !sub.shadow {
        details := details + [Skipped];
        continue;
      }
      var isCancelled := env.cancelled(state.asked);
      state := Asked(state);
      if isCancelled {
        if !sub.shadow {
          cancelled := true;
        }
        details := details + [Skipped];
        continue;
      }
      var verdict, after := RunJudge(env, sub, state, nonDeciding || sub.shadow);
      state := after;
      if sub.shadow {
        details := details + [Shadowed(verdict)];
        continue;
      }
      details := details + [Evaluated(verdict)];
      match verdict {
        case Pass =>
          if requireAny {
            decider := i;
          }
        case Fail =>
          if !requireAny {
            decider := i;
          }
        case Error =>
          errored := errored + 1;
          if !requireAny {
            decider := i;
          }
      }
      assert Progress(state, decider, errored, cancelled, details) == next;
    }
    p := Progress(state, decider, errored, cancelled, details);
    NoSubs(env, subs[|subs|..], p, requireAny, nonDeciding);
  }

  lemma OneSub<W>(env: Env<W>, subs: seq<Judge>, i: nat, p: Progress<W>, requireAny: bool, nonDeciding: bool)
    requires i < |subs|
    ensures EvaluateSubs(env, subs[i..], p, requireAny, nonDeciding) ==
            EvaluateSubs(env, subs[i + 1..], EvaluateSub(env, subs[i], p, requireAny, nonDeciding), requireAny,
                nonDeciding)
  {
    hide EvaluateSub;
    assert subs[i..][0] == subs[i] && subs[i..][1..] == subs[i + 1..];
  }

  lemma NoSubs<W>(env: Env<W>, subs: seq<Judge>, p: Progress<W>, requireAny: bool, nonDeciding: bool)
    requires subs == []
    ensures EvaluateSubs(env, subs, p, requireAny, nonDeciding) == p
  {}
}
