/**
 Models pass^k and pass@k of eval/reporter/stats.go over exact reals: the incremental product that
 stands for C(a, k) / C(n, k), what the two estimates count, and how they bracket the pass rate.
 */
module PassAtK {
  /** A float64 result: not a number, or an exact value. */
  datatype Number = NaN | Value(x: real)

  /** The binomial coefficient, by Pascal's rule. */
  function Choose(n: nat, k: nat): (c: nat)
    ensures k <= n ==> c > 0
    ensures k > n ==> c == 0
  {
    if k == 0 then 1 else if n == 0 then 0 else Choose(n - 1, k - 1) + Choose(n - 1, k)
  }

  function Ratio(a: nat, n: nat, k: nat): real
    requires k <= n
  {
    Choose(a, k) as real / Choose(n, k) as real
  }

  // ---- The product ----

  /** The step from one coefficient to the next, without division. */
  lemma {:induction false} ChooseNext(a: nat, k: nat)
    ensures Choose(a, k + 1) * (k + 1) == Choose(a, k) * (a - k)
    decreases a
  {
    if a > 0 {
      ChooseNext(a - 1, k);
      if k > 0 {
        ChooseNext(a - 1, k - 1);
        Pascal(a, k);
        Pascal(a, k + 1);
        hide Choose;
        Absorb(a, k, Choose(a - 1, k - 1), Choose(a - 1, k), Choose(a - 1, k + 1));
      } else {
        Pascal(a, 1);
      }
    }
  }

  lemma {:induction false} Pascal(n: nat, k: nat)
    requires n > 0 && k > 0
    ensures Choose(n, k) == Choose(n - 1, k - 1) + Choose(n - 1, k)
  {}

  lemma {:induction false} Absorb(a: int, k: int, below: int, same: int, above: int)
    requires above * (k + 1) == same * (a - 1 - k) && same * k == below * (a - k)
    ensures (same + above) * (k + 1) == (below + same) * (a - k)
  {}

  lemma {:induction false} RatioNext(a: nat, n: nat, k: nat)
    requires k < n
    ensures Ratio(a, n, k + 1) == Ratio(a, n, k) * ((a - k) as real / (n - k) as real)
  {
    hide Choose;
    ChooseNext(a, k);
    ChooseNext(n, k);
    CrossMultiplied(Choose(a, k + 1) as real, Choose(a, k) as real, (a - k) as real,
                    Choose(n, k + 1) as real, Choose(n, k) as real, (n - k) as real, (k + 1) as real);
  }

  lemma {:induction false} CrossMultiplied(a1: real, a0: real, p: real, n1: real, n0: real, q: real, j: real)
    requires j > 0.0 && n1 > 0.0 && n0 > 0.0 && q > 0.0
    requires a1 * j == a0 * p && n1 * j == n0 * q
    ensures a1 / n1 == a0 / n0 * (p / q)
  {
    var x, y := a0 / n0, p / q;
    assert a0 == x * n0 && p == y * q;
    assert a1 * j == x * y * (n0 * q) == x * y * n1 * j;
    assert (a1 - x * y * n1) * j == 0.0;
    assert a1 == x * y * n1;
  }

  /** binomialRatio. */
  method BinomialRatio(a: int, n: int, k: int) returns (r: Number)
    ensures r.NaN? <==> k < 0 || k > n
    ensures 0 <= k <= n ==> r == Value(if a < 0 then 0.0 else Ratio(a, n, k))
  {
    if k < 0 || k > n {
      return NaN;
    }
    if a < k {
      return Value(0.0);
    }
    var x := 1.0;
    for i := 0 to k
      invariant x == Ratio(a, n, i)
    {
      RatioNext(a, n, i);
      x := x * ((a - i) as real / (n - i) as real);
    }
    return Value(x);
  }

  /** PassHatK. */
  method PassHatK(c: int, n: int, k: int) returns (r: Number)
    ensures r.NaN? <==> k < 0 || k > n
    ensures 0 <= k <= n ==> r == Value(if c < 0 then 0.0 else Ratio(c, n, k))
  {
    r := BinomialRatio(c, n, k);
  }

  /** PassAtK. */
  method PassAtK(c: int, n: int, k: int) returns (r: Number)
    ensures r.NaN? <==> k < 0 || k > n
    ensures 0 <= k <= n ==> r == Value(if n < c then 1.0 else 1.0 - Ratio(n - c, n, k))
  {
    r := BinomialRatio(n - c, n, k);
    match r
    case NaN =>
    case Value(x) => r := Value(1.0 - x);
  }

  // ---- Bounds and monotonicity ----

  lemma {:induction false} RatioShrinks(a: nat, n: nat, k: nat)
    requires a <= n && k < n
    ensures 0.0 <= Ratio(a, n, k + 1) <= Ratio(a, n, k)
  {
    RatioNext(a, n, k);
    RatioIsPositive(a, n, k);
    RatioIsPositive(a, n, k + 1);
    if k < a {
      hide Ratio;
      ScaledDown(Ratio(a, n, k), (a - k) as real, (n - k) as real);
    }
  }

  lemma {:induction false} ScaledDown(x: real, p: real, q: real)
    requires x >= 0.0 && 0.0 <= p <= q && q > 0.0
    ensures x * (p / q) <= x
  {
    var f := p / q;
    assert f <= 1.0;
    assert x * f <= x;
  }

  lemma {:induction false} RatioIsPositive(a: nat, n: nat, k: nat)
    requires k <= n
    ensures Ratio(a, n, k) >= 0.0
  {}

  lemma {:induction false} RatioIsMonotone(a: nat, n: nat, j: nat, k: nat)
    requires a <= n && j <= k <= n
    ensures 0.0 <= Ratio(a, n, k) <= Ratio(a, n, j)
    decreases k
  {
    hide Ratio;
    if j < k {
      RatioIsMonotone(a, n, j, k - 1);
      RatioShrinks(a, n, k - 1);
    } else {
      RatioIsPositive(a, n, k);
    }
  }

  lemma {:induction false} ChooseOne(n: nat)
    ensures Choose(n, 1) == n
  {
    if n > 0 {
      ChooseOne(n - 1);
    }
  }

  lemma {:induction false} RatioOfOne(a: nat, n: nat)
    requires n > 0
    ensures Ratio(a, n, 1) == a as real / n as real
  {
    ChooseOne(a);
    ChooseOne(n);
  }

  /** pass^k is at most the pass rate, which is at most pass@k; each is monotone in k. */
  lemma {:induction false} EstimatesBracketPassRate(c: nat, n: nat, k: nat)
    requires c <= n && 1 <= k <= n
    ensures 0.0 <= Ratio(c, n, k) <= c as real / n as real <= 1.0 - Ratio(n - c, n, k) <= 1.0
  {
    hide Ratio;
    RatioIsMonotone(c, n, 1, k);
    RatioIsMonotone(n - c, n, 1, k);
    RatioOfOne(c, n);
    RatioOfOne(n - c, n);
    Complement(c as real, n as real);
  }

  lemma {:induction false} Complement(c: real, n: real)
    requires n > 0.0
    ensures (n - c) / n == 1.0 - c / n
  {
    var x, y := c / n, (n - c) / n;
    assert x * n == c && y * n == n - c;
    ZeroFactor(x + y - 1.0, n);
  }

  lemma {:induction false} ZeroFactor(x: real, n: real)
    requires x * n == 0.0 && n > 0.0
    ensures x == 0.0
  {}

  lemma {:induction false} EstimatesAreMonotone(c: nat, n: nat, j: nat, k: nat)
    requires c <= n && j <= k <= n
    ensures Ratio(c, n, k) <= Ratio(c, n, j)
    ensures 1.0 - Ratio(n - c, n, j) <= 1.0 - Ratio(n - c, n, k)
  {
    hide Ratio;
    RatioIsMonotone(c, n, j, k);
    RatioIsMonotone(n - c, n, j, k);
  }

  // ---- What the estimates count ----

  /** Every way to pick k of the trials, in order: with the first trial, then without it. */
  function Picks(trials: seq<bool>, k: nat): seq<seq<bool>>
    decreases |trials|
  {
    if k == 0 then [[]]
    else if trials == [] then []
    else With(trials[0], Picks(trials[1..], k - 1)) + Picks(trials[1..], k)
  }

  function With(trial: bool, picks: seq<seq<bool>>): (r: seq<seq<bool>>)
    ensures |r| == |picks|
  {
    if picks == [] then [] else [[trial] + picks[0]] + With(trial, picks[1..])
  }

  predicate AllAre(pick: seq<bool>, passed: bool) { forall i | 0 <= i < |pick| :: pick[i] == passed }

  /** How many of the picks hold only passes, or only failures. */
  function Uniform(picks: seq<seq<bool>>, passed: bool): (n: nat)
    ensures n <= |picks|
  {
    if picks == [] then 0 else (if AllAre(picks[0], passed) then 1 else 0) + Uniform(picks[1..], passed)
  }

  function Trials(trials: seq<bool>, passed: bool): (n: nat)
    ensures n <= |trials|
  {
    if trials == [] then 0 else (if trials[0] == passed then 1 else 0) + Trials(trials[1..], passed)
  }

  lemma {:induction false} PicksAreCounted(trials: seq<bool>, k: nat)
    ensures |Picks(trials, k)| == Choose(|trials|, k)
    decreases |trials|
  {
    hide *;
    PicksStep(trials, k);
    if trials != [] && k > 0 {
      PicksAreCounted(trials[1..], k - 1);
      PicksAreCounted(trials[1..], k);
      Pascal(|trials|, k);
    }
  }

  lemma {:induction false} PicksStep(trials: seq<bool>, k: nat)
    ensures if k == 0 || trials == [] then |Picks(trials, k)| == Choose(|trials|, k)
            else |Picks(trials, k)| == |Picks(trials[1..], k - 1)| + |Picks(trials[1..], k)|
  {
    hide With;
  }

  lemma {:induction false} UniformOfConcat(a: seq<seq<bool>>, b: seq<seq<bool>>, passed: bool)
    ensures Uniform(a + b, passed) == Uniform(a, passed) + Uniform(b, passed)
  {
    if a == [] {
      assert a + b == b;
    } else {
      assert (a + b)[1..] == a[1..] + b;
      UniformOfConcat(a[1..], b, passed);
    }
  }

  lemma {:induction false} UniformOfWith(trial: bool, picks: seq<seq<bool>>, passed: bool)
    ensures Uniform(With(trial, picks), passed) == if trial == passed then Uniform(picks, passed) else 0
  {
    if picks != [] {
      UniformOfWith(trial, picks[1..], passed);
      var pick := [trial] + picks[0];
      assert pick[0] == trial && pick[1..] == picks[0];
      assert AllAre(pick, passed) == (trial == passed && AllAre(picks[0], passed)) by {
        if trial == passed && AllAre(pick, passed) {
          assert forall i | 0 <= i < |picks[0]| :: picks[0][i] == pick[i + 1];
        }
      }
      assert With(trial, picks)[1..] == With(trial, picks[1..]);
    }
  }

  lemma {:induction false} UniformPicks(trials: seq<bool>, k: nat, passed: bool)
    ensures Uniform(Picks(trials, k), passed) == Choose(Trials(trials, passed), k)
    decreases |trials|
  {
    hide *;
    if k == 0 || trials == [] {
      UniformEnds(trials, k, passed);
    } else {
      UniformStep(trials, k, passed);
      UniformPicks(trials[1..], k - 1, passed);
      UniformPicks(trials[1..], k, passed);
      TrialsStep(trials, passed);
      Pascal(Trials(trials[1..], passed) + 1, k);
    }
  }

  lemma {:induction false} TrialsStep(trials: seq<bool>, passed: bool)
    requires trials != []
    ensures Trials(trials, passed) == (if trials[0] == passed then 1 else 0) + Trials(trials[1..], passed)
  {}

  lemma {:induction false} UniformEnds(trials: seq<bool>, k: nat, passed: bool)
    requires k == 0 || trials == []
    ensures Uniform(Picks(trials, k), passed) == Choose(Trials(trials, passed), k)
  {
    if k == 0 {
      assert Uniform([[]], passed) == 1 + Uniform([], passed);
    }
  }

  lemma {:induction false} UniformStep(trials: seq<bool>, k: nat, passed: bool)
    requires k > 0 && trials != []
    ensures Uniform(Picks(trials, k), passed) ==
            (if trials[0] == passed then Uniform(Picks(trials[1..], k - 1), passed) else 0)
                + Uniform(Picks(trials[1..], k), passed)
  {
    hide Uniform;
    UniformOfConcat(With(trials[0], Picks(trials[1..], k - 1)), Picks(trials[1..], k), passed);
    UniformOfWith(trials[0], Picks(trials[1..], k - 1), passed);
  }

  lemma {:induction false} TrialsAreSplit(trials: seq<bool>)
    ensures Trials(trials, true) + Trials(trials, false) == |trials|
  {
    if trials != [] {
      TrialsAreSplit(trials[1..]);
    }
  }

  /**
   pass^k is the share of the k-trial picks that pass throughout, and pass@k the share of those with
   at least one pass.
   */
  lemma {:induction false} EstimatesCountPicks(trials: seq<bool>, k: nat)
    requires k <= |trials|
    ensures var picks, n, c := Picks(trials, k), |trials|, Trials(trials, true);
            |picks| > 0
            && Ratio(c, n, k) == Uniform(picks, true) as real / |picks| as real
            && 1.0 - Ratio(n - c, n, k) == (|picks| - Uniform(picks, false)) as real / |picks| as real
  {
    hide Picks, Uniform, Choose, Trials;
    PicksAreCounted(trials, k);
    UniformPicks(trials, k, true);
    UniformPicks(trials, k, false);
    TrialsAreSplit(trials);
    Complement(Uniform(Picks(trials, k), false) as real, |Picks(trials, k)| as real);
  }
}
