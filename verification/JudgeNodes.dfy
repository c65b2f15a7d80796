/**
 What validation of a judge tree says of every judge in it, and how a composite threads the
 workspace through its commands.
 */
module JudgeNodes {
  import opened JudgeTree

  /** A judge somewhere in a tree, and whether it sits beneath a shadow. */
  datatype Node = Node(judge: Judge, beneath: bool)

  function Nodes(j: Judge, beneath: bool): (nodes: seq<Node>)
    decreases j, 1
  {
    [Node(j, beneath)] + NodesOfAll(j.judges, beneath || j.shadow)
  }

  function NodesOfAll(judges: seq<Judge>, beneath: bool): (nodes: seq<Node>)
    decreases judges, 0
  {
    if judges == [] then [] else Nodes(judges[0], beneath) + NodesOfAll(judges[1..], beneath)
  }

  /** No command runs as or beneath a shadow, the decision provider only as one, and some sub-judge decides. */
  predicate KeepsShadowRules(n: Node) {
    && (n.beneath || n.judge.shadow ==> !n.judge.kind.TestCommand? && !n.judge.kind.Unknown?)
    && (n.judge.decision ==> n.judge.shadow)
    && (n.judge.kind.Composite? && n.judge.judges != [] ==> exists sub | sub in n.judge.judges :: !sub.shadow)
  }

  lemma {:induction false} DecidingIsSome(judges: seq<Judge>)
    ensures Deciding(judges) > 0 <==> exists sub | sub in judges :: !sub.shadow
  {
    if judges != [] {
      DecidingIsSome(judges[..|judges| - 1]);
      assert judges == judges[..|judges| - 1] + [judges[|judges| - 1]];
    }
  }

  /** The shadow rules hold of a tree exactly when they hold of every judge in it. */
  lemma {:induction false} ShadowRulesEverywhere(j: Judge, topLevel: bool, beneath: bool)
    ensures ValidShadow(j, topLevel, beneath) <==>
              !(topLevel && j.shadow) && forall n | n in Nodes(j, beneath) :: KeepsShadowRules(n)
    decreases j, 1
  {
    DecidingIsSome(j.judges);
    ShadowRulesBelow(j.judges, beneath || j.shadow);
    assert Node(j, beneath) in Nodes(j, beneath);
    var below := NodesOfAll(j.judges, beneath || j.shadow);
    assert forall n :: n in Nodes(j, beneath) <==> n == Node(j, beneath) || n in below;
  }

  lemma {:induction false} ShadowRulesBelow(judges: seq<Judge>, beneath: bool)
    ensures (forall sub | sub in judges :: ValidShadow(sub, false, beneath)) <==>
              forall n | n in NodesOfAll(judges, beneath) :: KeepsShadowRules(n)
    decreases judges, 0
  {
    hide KeepsShadowRules, ValidShadow;
    if judges != [] {
      ShadowRulesEverywhere(judges[0], false, beneath);
      ShadowRulesBelow(judges[1..], beneath);
      assert judges == [judges[0]] + judges[1..];
      assert forall sub :: sub in judges <==> sub == judges[0] || sub in judges[1..];
      var nodes := NodesOfAll(judges, beneath);
      assert forall n :: n in nodes <==> n in Nodes(judges[0], beneath) || n in NodesOfAll(judges[1..], beneath);
    }
  }

  /** A known kind with acceptable parameters; a composite has sub-judges and a requirement it knows. */
  predicate IsWellFormed<W>(env: Env<W>, j: Judge) {
    && !j.kind.Unknown? && env.fieldsOk(j.kind, j.fields)
    && (j.kind.Composite? ==> j.judges != [] && j.require in {"", "all", "any"})
  }

  /** The judges evaluation can reach: sub-judges of composites, and theirs. */
  function Reached(j: Judge): (judges: seq<Judge>)
    decreases j, 1
  {
    [j] + (if j.kind.Composite? then ReachedOfAll(j.judges) else [])
  }

  function ReachedOfAll(judges: seq<Judge>): (r: seq<Judge>)
    decreases judges, 0
  {
    if judges == [] then [] else Reached(judges[0]) + ReachedOfAll(judges[1..])
  }

  /** A tree is valid exactly when every judge evaluation can reach is well formed. */
  lemma {:induction false} ValidEverywhere<W>(env: Env<W>, j: Judge)
    ensures ValidTree(env, j) <==> forall n | n in Reached(j) :: IsWellFormed(env, n)
    decreases j, 1
  {
    if j.kind.Composite? {
      ValidBelow(env, j.judges);
    }
    assert j in Reached(j);
    assert forall n :: n in Reached(j) <==> n == j || (j.kind.Composite? && n in ReachedOfAll(j.judges));
  }

  lemma {:induction false} ValidBelow<W>(env: Env<W>, judges: seq<Judge>)
    ensures (forall sub | sub in judges :: ValidTree(env, sub)) <==>
              forall n | n in ReachedOfAll(judges) :: IsWellFormed(env, n)
    decreases judges, 0
  {
    hide IsWellFormed, ValidTree;
    if judges != [] {
      ValidEverywhere(env, judges[0]);
      ValidBelow(env, judges[1..]);
      assert forall sub :: sub in judges <==> sub == judges[0] || sub in judges[1..];
      var all := ReachedOfAll(judges);
      assert forall n :: n in all <==> n in Reached(judges[0]) || n in ReachedOfAll(judges[1..]);
    }
  }

  /** A composite that is not valid is an error, and nothing is run. */
  lemma InvalidIsError<W>(env: Env<W>, j: Judge, st: State<W>, nonDeciding: bool)
    requires j.kind.Composite? && !(ValidTree(env, j) && ValidShadow(j, false, false))
    ensures Evaluate(env, j, st, nonDeciding) == (Error, st)
  {}

  /** So is any other judge of an unknown kind or with parameters that are not acceptable. */
  lemma UnrunnableIsError<W>(env: Env<W>, j: Judge, st: State<W>, nonDeciding: bool)
    requires !j.kind.Composite? && !IsWellFormed(env, j)
    ensures Evaluate(env, j, st, nonDeciding) == (Error, st)
  {}

  /** A judge that is neither a composite nor a command looks at the workspace and leaves it as it is. */
  lemma InspectionIsItsVerdict<W>(env: Env<W>, j: Judge, st: State<W>, nonDeciding: bool)
    requires !j.kind.Composite? && !j.kind.TestCommand? && IsWellFormed(env, j)
    ensures Evaluate(env, j, st, nonDeciding) == (env.inspect(j.kind, j.fields, st.ws, nonDeciding), st)
  {}

  // ---- Commands ----

  function Command(fields: string): Judge { Judge(TestCommand, fields, false, [], "", false) }

  function Commands(texts: seq<string>): (judges: seq<Judge>)
    ensures |judges| == |texts| && forall i | 0 <= i < |texts| :: judges[i] == Command(texts[i])
  {
    seq(|texts|, i requires 0 <= i < |texts| => Command(texts[i]))
  }

  /** The commands run one after the other, each on what the one before left, up to the first that does not pass. */
  function InOrder<W>(env: Env<W>, texts: seq<string>, ws: W): (r: (Status, W)) {
    if texts == [] then (Pass, ws)
    else
      var r := env.command(texts[0], ws);
      if r.0.Pass? then InOrder(env, texts[1..], r.1) else r
  }

  /** A composite of commands that must all pass is a script that stops at its first failure. */
  lemma {:induction false} CommandsRunInOrder<W>(env: Env<W>, texts: seq<string>, st: State<W>, nonDeciding: bool)
    requires texts != [] && (forall i :: !env.cancelled(i)) && env.fieldsOk(Composite, "")
    requires forall text | text in texts :: env.fieldsOk(TestCommand, text)
    ensures var r := Evaluate(env, Judge(Composite, "", false, Commands(texts), "all", false), st, nonDeciding);
            (r.0, r.1.ws) == InOrder(env, texts, st.ws)
  {
    var j := Judge(Composite, "", false, Commands(texts), "all", false);
    DecidingIsSome(j.judges);
    assert j.judges[0] in j.judges;
    assert ValidTree(env, j) && ValidShadow(j, false, false);
    CommandsStep(env, texts, Progress(st, -1, 0, false, []), nonDeciding);
  }

  lemma {:induction false} CommandsStep<W>(env: Env<W>, texts: seq<string>, p: Progress<W>, nonDeciding: bool)
    requires (forall i :: !env.cancelled(i)) && forall text | text in texts :: env.fieldsOk(TestCommand, text)
    requires p.decider < 0 && !p.cancelled
    ensures var q := EvaluateSubs(env, Commands(texts), p, false, nonDeciding);
            (Outcome(q, false), q.state.ws) == InOrder(env, texts, p.state.ws)
    decreases |texts|
  {
    if texts != [] {
      assert Commands(texts)[1..] == Commands(texts[1..]) && texts[0] in texts;
      OneCommand(env, texts[0], Asked(p.state), nonDeciding);
      hide Evaluate;
      var next := EvaluateSub(env, Command(texts[0]), p, false, nonDeciding);
      if next.decider < 0 {
        CommandsStep(env, texts[1..], next, nonDeciding);
      } else {
        assert next.details[|p.details|] == Evaluated(env.command(texts[0], p.state.ws).0);
        DecidedSkips(env, texts[1..], next, nonDeciding);
      }
    }
  }

  /** A command's status is its own, and what it leaves is what the next judge sees. */
  lemma {:induction false} OneCommand<W>(env: Env<W>, text: string, st: State<W>, nonDeciding: bool)
    requires env.fieldsOk(TestCommand, text)
    ensures var r := env.command(text, st.ws);
            Evaluate(env, Command(text), st, nonDeciding) == (r.0, st.(ws := r.1))
  {}

  lemma {:induction false} DecidedSkips<W>(env: Env<W>, texts: seq<string>, p: Progress<W>, nonDeciding: bool)
    requires 0 <= p.decider < |p.details| && p.details[p.decider].Evaluated?
    ensures var q := EvaluateSubs(env, Commands(texts), p, false, nonDeciding);
            Outcome(q, false) == Outcome(p, false) && q.state == p.state
    decreases |texts|
  {
    if texts != [] {
      assert Commands(texts)[1..] == Commands(texts[1..]);
      DecidedSkips(env, texts[1..], p.(details := p.details + [Skipped]), nonDeciding);
    }
  }
}
