/**
 Models SignFlipPValue of eval/reporter/stats.go over exact reals: the two-sided paired
 permutation test that counts, over every assignment of signs to the non-zero differences, how
 often the absolute sum reaches the observed one.
 */
module SignFlip {
  const MAX_EXACT := 20

  /**
   The exact share, or above MAX_EXACT differences the normal approximation, which is the
   complementary error function of the root of half of zSquared.
   */
  datatype PValue = Exact(p: real) | Approximate(zSquared: real)

  function Abs(x: real): real { if x < 0.0 then -x else x }

  function NonZero(diffs: seq<real>): (r: seq<real>) {
    if diffs == [] then []
    else NonZero(diffs[..|diffs| - 1]) + (if diffs[|diffs| - 1] == 0.0 then [] else [diffs[|diffs| - 1]])
  }

  function Sum(xs: seq<real>): real { if xs == [] then 0.0 else Sum(xs[..|xs| - 1]) + xs[|xs| - 1] }

  function Magnitudes(xs: seq<real>): (r: seq<real>)
    ensures |r| == |xs| && forall i | 0 <= i < |xs| :: r[i] == Abs(xs[i])
  {
    seq(|xs|, i requires 0 <= i < |xs| => Abs(xs[i]))
  }

  function Target(xs: seq<real>): real { Abs(Sum(xs)) - 0.000000001 * Sum(Magnitudes(xs)) }

  function Pow2(n: nat): (p: nat)
    ensures p >= 1
  {
    if n == 0 then 1 else 2 * Pow2(n - 1)
  }

  /** Whether a sum counts as a hit, as a count. */
  function Reaches(s: real, target: real): nat { if Abs(s) >= target then 1 else 0 }

  /** How many sign assignments to xs bring s to an absolute value of at least target. */
  function Hits(xs: seq<real>, s: real, target: real): (n: nat)
    decreases |xs|
  {
    if xs == [] then Reaches(s, target)
    else Hits(xs[1..], s + xs[0], target) + Hits(xs[1..], s - xs[0], target)
  }

  /** The p-value the test is defined by. */
  function TestValue(diffs: seq<real>): real {
    var xs := NonZero(diffs);
    if xs == [] then 1.0 else Hits(xs, 0.0, Target(xs)) as real / Pow2(|xs|) as real
  }

  // ---- The enumeration by bit mask ----

  /** The sum with the sign of each element taken from the mask's bits, lowest first. */
  function Signed(xs: seq<real>, mask: nat): real
    decreases |xs|
  {
    if xs == [] then 0.0 else (if mask % 2 == 1 then -xs[0] else xs[0]) + Signed(xs[1..], mask / 2)
  }

  /** How many masks below n reach the target from s. */
  function MaskHits(xs: seq<real>, s: real, target: real, n: nat): (hits: nat) {
    if n == 0 then 0 else MaskHits(xs, s, target, n - 1) + Reaches(s + Signed(xs, n - 1), target)
  }

  lemma {:induction false} SignedPair(xs: seq<real>, n: nat)
    requires xs != []
    ensures Signed(xs, 2 * n) == xs[0] + Signed(xs[1..], n) && Signed(xs, 2 * n + 1) == -xs[0] + Signed(xs[1..], n)
  {}

  /** Masks in pairs: the lowest bit picks the first sign, the rest of the mask the others. */
  lemma {:induction false} MasksInPairs(xs: seq<real>, s: real, target: real, n: nat)
    requires xs != []
    ensures MaskHits(xs, s, target, 2 * n) ==
            MaskHits(xs[1..], s + xs[0], target, n) + MaskHits(xs[1..], s - xs[0], target, n)
  {
    hide *;
    if n == 0 {
      NoMasks(xs, s, target);
      NoMasks(xs[1..], s + xs[0], target);
      NoMasks(xs[1..], s - xs[0], target);
    } else {
      MasksInPairs(xs, s, target, n - 1);
      OneMorePair(xs, s, target, n - 1);
      OneMoreMask(xs[1..], s + xs[0], target, n - 1);
      OneMoreMask(xs[1..], s - xs[0], target, n - 1);
    }
  }

  lemma {:induction false} NoMasks(xs: seq<real>, s: real, target: real)
    ensures MaskHits(xs, s, target, 0) == 0
  {}

  lemma {:induction false} OneMorePair(xs: seq<real>, s: real, target: real, n: nat)
    requires xs != []
    ensures MaskHits(xs, s, target, 2 * (n + 1)) ==
            MaskHits(xs, s, target, 2 * n) + Reaches(s + xs[0] + Signed(xs[1..], n), target)
            + Reaches(s - xs[0] + Signed(xs[1..], n), target)
  {
    hide *;
    SignedPair(xs, n);
    OneMoreMask(xs, s, target, 2 * n);
    OneMoreMask(xs, s, target, 2 * n + 1);
    assert s + (xs[0] + Signed(xs[1..], n)) == s + xs[0] + Signed(xs[1..], n);
    assert s + (-xs[0] + Signed(xs[1..], n)) == s - xs[0] + Signed(xs[1..], n);
  }

  lemma {:induction false} OneMoreMask(xs: seq<real>, s: real, target: real, n: nat)
    ensures MaskHits(xs, s, target, n + 1) == MaskHits(xs, s, target, n) + Reaches(s + Signed(xs, n), target)
  {
    hide Signed, Reaches;
  }

  /** The masks enumerate exactly the sign assignments. */
  lemma {:induction false} MasksAreAssignments(xs: seq<real>, s: real, target: real)
    ensures MaskHits(xs, s, target, Pow2(|xs|)) == Hits(xs, s, target)
    decreases |xs|
  {
    if xs == [] {
      assert MaskHits(xs, s, target, 1) == MaskHits(xs, s, target, 0) + Reaches(s + 0.0, target);
    } else {
      MasksInPairs(xs, s, target, Pow2(|xs| - 1));
      MasksAreAssignments(xs[1..], s + xs[0], target);
      MasksAreAssignments(xs[1..], s - xs[0], target);
    }
  }

  /** The mask shifted right by i bits; its lowest bit is the mask's bit i. */
  function Shift(mask: nat, i: nat): nat { if i == 0 then mask else Shift(mask, i - 1) / 2 }

  /** One step of the inner loop: bit i of the mask decides the sign of the i-th value. */
  lemma {:induction false} SignedStep(xs: seq<real>, mask: nat, i: nat)
    requires i < |xs|
    ensures Signed(xs[i..], Shift(mask, i)) ==
            (if Shift(mask, i) % 2 == 1 then -xs[i] else xs[i]) + Signed(xs[i + 1..], Shift(mask, i + 1))
  {
    assert xs[i..][0] == xs[i] && xs[i..][1..] == xs[i + 1..];
  }

  lemma {:induction false} SignedEnds(xs: seq<real>, mask: nat)
    ensures Signed(xs[0..], Shift(mask, 0)) == Signed(xs, mask) && Signed(xs[|xs|..], Shift(mask, |xs|)) == 0.0
  {
    assert xs[0..] == xs;
  }

  /** The inner loop: the signed sum of one mask. */
  method SignedSum(abs: seq<real>, mask: nat) returns (s: real)
    ensures s == Signed(abs, mask)
  {
    hide Signed, Shift;
    s := 0.0;
    SignedEnds(abs, mask);
    for i := 0 to |abs|
      invariant s + Signed(abs[i..], Shift(mask, i)) == Signed(abs, mask)
    {
      SignedStep(abs, mask, i);
      if Shift(mask, i) % 2 != 0 {
        s := s - abs[i];
      } else {
        s := s + abs[i];
      }
    }
  }

  /** SignFlipPValue. */
  method SignFlipPValue(diffs: seq<real>) returns (r: PValue)
    ensures |NonZero(diffs)| <= 20 ==> r == Exact(TestValue(diffs))
    ensures |NonZero(diffs)| > 20 ==> SumOfSquares(NonZero(diffs)) > 0.0 && r == Approximate(ZSquared(diffs))
  {
    hide NonZero, Sum, Hits, Pow2, Magnitudes, SumOfSquares, Square;
    var abs, observed, scale := Collect(diffs);
    if |abs| == 0 {
      return Exact(1.0);
    }
    var target := Abs(observed) - 0.000000001 * scale;
    if |abs| > MAX_EXACT {
      var ss := AddSquares(abs);
      SquaresIgnoreSigns(NonZero(diffs));
      SquaresArePositive(diffs);
      AbsSquared(observed);
      return Approximate(Square(Abs(observed)) / ss);
    }
    var total := Pow2(|abs|);
    var hits := CountHits(abs, target);
    HitsIgnoreSigns(NonZero(diffs), 0.0, target);
    return Exact(hits as real / total as real);
  }

  function Times(x: real, y: real): real { x * y }

  function Square(x: real): real { Times(x, x) }

  function SumOfSquares(xs: seq<real>): real {
    if xs == [] then 0.0 else SumOfSquares(xs[..|xs| - 1]) + Square(xs[|xs| - 1])
  }

  /** The square of the sum over the sum of the squares. */
  function ZSquared(diffs: seq<real>): real {
    var xs := NonZero(diffs);
    if SumOfSquares(xs) == 0.0 then 0.0 else Square(Sum(xs)) / SumOfSquares(xs)
  }

  /** The loop of the approximation. */
  method AddSquares(abs: seq<real>) returns (ss: real)
    ensures ss == SumOfSquares(abs)
  {
    ss := 0.0;
    for i := 0 to |abs|
      invariant ss == SumOfSquares(abs[..i])
    {
      assert abs[..i + 1][..i] == abs[..i];
      ss := ss + Square(abs[i]);
    }
    assert abs[..|abs|] == abs;
  }

  lemma {:induction false} AbsSquared(x: real)
    ensures Square(Abs(x)) == Square(x)
  {
    SignsCancel(x, x);
  }

  lemma {:induction false} SignsCancel(x: real, y: real)
    ensures Times(-x, -y) == Times(x, y)
  {}

  lemma {:induction false} SquaresIgnoreSigns(xs: seq<real>)
    ensures SumOfSquares(Magnitudes(xs)) == SumOfSquares(xs)
  {
    if xs != [] {
      assert Magnitudes(xs)[..|xs| - 1] == Magnitudes(xs[..|xs| - 1]);
      SquaresIgnoreSigns(xs[..|xs| - 1]);
      hide Magnitudes, Abs, Square;
      AbsSquared(xs[|xs| - 1]);
    }
  }

  lemma {:induction false} SquaresArePositive(diffs: seq<real>)
    ensures NonZero(diffs) != [] ==> SumOfSquares(NonZero(diffs)) > 0.0
  {
    NoZeroIsLeft(diffs);
    PositiveSquares(NonZero(diffs));
  }

  lemma {:induction false} NoZeroIsLeft(diffs: seq<real>)
    ensures 0.0 !in NonZero(diffs)
  {
    if diffs != [] {
      NoZeroIsLeft(diffs[..|diffs| - 1]);
    }
  }

  lemma {:induction false} PositiveSquares(xs: seq<real>)
    requires 0.0 !in xs
    ensures SumOfSquares(xs) >= 0.0 && (xs != [] ==> SumOfSquares(xs) > 0.0)
  {
    if xs != [] {
      hide Square;
      PositiveSquares(xs[..|xs| - 1]);
      SquareIsPositive(xs[|xs| - 1]);
    }
  }

  lemma {:induction false} SquareIsPositive(x: real)
    requires x != 0.0
    ensures Square(x) > 0.0
  {
    ProductIsPositive(x, x);
  }

  lemma {:induction false} ProductIsPositive(x: real, y: real)
    requires (x > 0.0 && y > 0.0) || (x < 0.0 && y < 0.0)
    ensures Times(x, y) > 0.0
  {}

  /** The loop over the masks. */
  method CountHits(abs: seq<real>, target: real) returns (hits: nat)
    ensures hits == Hits(abs, 0.0, target)
  {
    hide Hits, Pow2, Signed;
    hits := 0;
    for mask := 0 to Pow2(|abs|)
      invariant hits == MaskHits(abs, 0.0, target, mask)
    {
      var s := SignedSum(abs, mask);
      if Abs(s) >= target {
        hits := hits + 1;
      }
      assert 0.0 + s == s;
    }
    MasksAreAssignments(abs, 0.0, target);
  }

  /** The first loop of SignFlipPValue, which drops zeros. */
  method Collect(diffs: seq<real>) returns (abs: seq<real>, observed: real, scale: real)
    ensures Summarises(NonZero(diffs), abs, observed, scale)
  {
    hide *;
    abs, observed, scale := [], 0.0, 0.0;
    CollectEnds(diffs);
    for i := 0 to |diffs|
      invariant Summarises(NonZero(diffs[..i]), abs, observed, scale)
    {
      var d := diffs[i];
      OneMoreDifference(diffs, i);
      if d == 0.0 {
        continue;
      }
      OneMoreSummed(NonZero(diffs[..i]), abs, observed, scale, d);
      abs := abs + [Abs(d)];
      observed := observed + d;
      scale := scale + Abs(d);
    }
  }

  predicate Summarises(xs: seq<real>, abs: seq<real>, observed: real, scale: real) {
    abs == Magnitudes(xs) && observed == Sum(xs) && scale == Sum(Magnitudes(xs))
  }

  lemma {:induction false} CollectEnds(diffs: seq<real>)
    ensures Summarises(NonZero(diffs[..0]), [], 0.0, 0.0) && diffs[..|diffs|] == diffs
  {
    assert diffs[..0] == [];
  }

  lemma {:induction false} OneMoreDifference(diffs: seq<real>, i: nat)
    requires i < |diffs|
    ensures NonZero(diffs[..i + 1]) == if diffs[i] == 0.0 then NonZero(diffs[..i]) else NonZero(diffs[..i]) + [diffs[i]]
  {
    assert diffs[..i + 1][..i] == diffs[..i];
  }

  lemma {:induction false} OneMoreSummed(xs: seq<real>, abs: seq<real>, observed: real, scale: real, d: real)
    requires Summarises(xs, abs, observed, scale)
    ensures Summarises(xs + [d], abs + [Abs(d)], observed + d, scale + Abs(d))
  {
    hide Abs;
    assert (xs + [d])[..|xs|] == xs && (abs + [Abs(d)])[..|xs|] == abs;
    assert abs + [Abs(d)] == Magnitudes(xs + [d]);
  }

  // ---- Every assignment of signs, written out ----

  /** All lists of m signs; true keeps a difference, false negates it. */
  function AllSigns(m: nat): (r: seq<seq<bool>>) {
    if m == 0 then [[]] else Led(true, AllSigns(m - 1)) + Led(false, AllSigns(m - 1))
  }

  function Led(sign: bool, lists: seq<seq<bool>>): (r: seq<seq<bool>>)
    ensures |r| == |lists| && forall i | 0 <= i < |lists| :: r[i] == [sign] + lists[i]
  {
    seq(|lists|, i requires 0 <= i < |lists| => [sign] + lists[i])
  }

  /** The sum of xs under a list of signs. */
  function Under(xs: seq<real>, signs: seq<bool>): real
    decreases |xs|
  {
    if xs == [] || signs == [] then 0.0 else (if signs[0] then xs[0] else -xs[0]) + Under(xs[1..], signs[1..])
  }

  /** How many of the lists bring s to an absolute value of at least target. */
  function Reaching(lists: seq<seq<bool>>, xs: seq<real>, s: real, target: real): (n: nat) {
    if lists == [] then 0
    else
      var sum := s + Under(xs, lists[0]);
      (if (if sum < 0.0 then -sum else sum) >= target then 1 else 0) + Reaching(lists[1..], xs, s, target)
  }

  lemma {:induction false} SignsStep(m: nat)
    requires m > 0
    ensures AllSigns(m) == Led(true, AllSigns(m - 1)) + Led(false, AllSigns(m - 1)) && Pow2(m) == 2 * Pow2(m - 1)
  {
    hide Led;
  }

  lemma {:induction false} SignsAreAll(m: nat)
    ensures |AllSigns(m)| == Pow2(m)
  {
    if m > 0 {
      SignsStep(m);
      hide AllSigns, Led, Pow2;
      SignsAreAll(m - 1);
    }
  }

  lemma {:induction false} ReachingConcat(a: seq<seq<bool>>, b: seq<seq<bool>>, xs: seq<real>, s: real, target: real)
    ensures Reaching(a + b, xs, s, target) == Reaching(a, xs, s, target) + Reaching(b, xs, s, target)
  {
    if a == [] {
      assert a + b == b;
    } else {
      assert (a + b)[1..] == a[1..] + b;
      ReachingConcat(a[1..], b, xs, s, target);
    }
  }

  lemma {:induction false} ReachingLed(sign: bool, lists: seq<seq<bool>>, xs: seq<real>, s: real, target: real)
    requires xs != []
    ensures Reaching(Led(sign, lists), xs, s, target) ==
            Reaching(lists, xs[1..], s + (if sign then xs[0] else -xs[0]), target)
  {
    if lists != [] {
      assert Led(sign, lists)[1..] == Led(sign, lists[1..]);
      ReachingLed(sign, lists[1..], xs, s, target);
      UnderLed(sign, lists[0], xs, s);
      hide Under, Led;
    }
  }

  lemma {:induction false} UnderLed(sign: bool, list: seq<bool>, xs: seq<real>, s: real)
    requires xs != []
    ensures s + Under(xs, [sign] + list) == s + (if sign then xs[0] else -xs[0]) + Under(xs[1..], list)
  {
    assert ([sign] + list)[1..] == list;
  }

  lemma {:induction false} HitsAreReaching(xs: seq<real>, s: real, target: real)
    ensures Hits(xs, s, target) == Reaching(AllSigns(|xs|), xs, s, target)
    decreases |xs|
  {
    hide *;
    if xs == [] {
      NothingToSign(xs, s, target);
    } else {
      HitsAreReaching(xs[1..], s + xs[0], target);
      HitsAreReaching(xs[1..], s - xs[0], target);
      var lists := AllSigns(|xs| - 1);
      SignsStep(|xs|);
      ReachingConcat(Led(true, lists), Led(false, lists), xs, s, target);
      ReachingLed(true, lists, xs, s, target);
      ReachingLed(false, lists, xs, s, target);
      assert [xs[0]] + xs[1..] == xs && s + -xs[0] == s - xs[0];
      HitsCons(xs[0], xs[1..], s, target);
    }
  }

  lemma {:induction false} NothingToSign(xs: seq<real>, s: real, target: real)
    requires xs == []
    ensures Hits(xs, s, target) == Reaching(AllSigns(|xs|), xs, s, target)
  {
    assert Reaching([[]], xs, s, target) == Reaches(s, target) + Reaching([], xs, s, target);
  }

  /**
   The p-value is the share, among all lists of signs for the non-zero differences, of those whose
   absolute sum reaches the observed one, less a billionth of the sum of magnitudes.
   */
  lemma {:induction false} TestValueIsShare(diffs: seq<real>)
    requires NonZero(diffs) != []
    ensures var xs := NonZero(diffs);
            var lists, target := AllSigns(|xs|), Abs(Sum(xs)) - 0.000000001 * Sum(Magnitudes(xs));
            |lists| == Pow2(|xs|) && TestValue(diffs) == Reaching(lists, xs, 0.0, target) as real / |lists| as real
  {
    hide NonZero, Sum, Hits, Pow2, AllSigns, Reaching, Magnitudes, Abs;
    var xs := NonZero(diffs);
    SignsAreAll(|xs|);
    HitsAreReaching(xs, 0.0, Target(xs));
  }

  // ---- Symmetry, and the range of the p-value ----

  lemma {:induction false} HitsIgnoreSigns(xs: seq<real>, s: real, target: real)
    ensures Hits(Magnitudes(xs), s, target) == Hits(xs, s, target)
    decreases |xs|
  {
    if xs != [] {
      assert Magnitudes(xs)[1..] == Magnitudes(xs[1..]);
      HitsIgnoreSigns(xs[1..], s + xs[0], target);
      HitsIgnoreSigns(xs[1..], s - xs[0], target);
    }
  }

  lemma {:induction false} HitsAreSymmetric(xs: seq<real>, s: real, target: real)
    ensures Hits(xs, -s, target) == Hits(xs, s, target)
    decreases |xs|
  {
    if xs != [] {
      HitsAreSymmetric(xs[1..], s + xs[0], target);
      HitsAreSymmetric(xs[1..], s - xs[0], target);
      assert -s + xs[0] == -(s - xs[0]) && -s - xs[0] == -(s + xs[0]);
    }
  }

  lemma {:induction false} HitsAtMostAll(xs: seq<real>, s: real, target: real)
    ensures Hits(xs, s, target) <= Pow2(|xs|)
    decreases |xs|
  {
    if xs != [] {
      HitsAtMostAll(xs[1..], s + xs[0], target);
      HitsAtMostAll(xs[1..], s - xs[0], target);
    }
  }

  lemma {:induction false} SumFromFront(xs: seq<real>)
    requires xs != []
    ensures Sum(xs) == xs[0] + Sum(xs[1..])
  {
    if |xs| == 1 {
      assert xs[..0] == [] && xs[1..] == [];
    } else {
      SumFromFront(xs[..|xs| - 1]);
      assert xs[..|xs| - 1][1..] == xs[1..][..|xs[1..]| - 1];
    }
  }

  /** The observed signs are one of the assignments. */
  lemma {:induction false} ObservedIsHit(xs: seq<real>, s: real, target: real)
    requires Abs(s + Sum(xs)) >= target
    ensures Hits(xs, s, target) >= 1
    decreases |xs|
  {
    if xs != [] {
      SumFromFront(xs);
      assert s + Sum(xs) == (s + xs[0]) + Sum(xs[1..]);
      ObservedIsHit(xs[1..], s + xs[0], target);
    }
  }

  lemma {:induction false} SumOfMagnitudes(xs: seq<real>)
    ensures Sum(Magnitudes(xs)) >= 0.0
  {
    if xs != [] {
      assert Magnitudes(xs)[..|xs| - 1] == Magnitudes(xs[..|xs| - 1]);
      SumOfMagnitudes(xs[..|xs| - 1]);
    }
  }

  /** With a non-zero difference, the hits come in pairs of opposite assignments, at least one pair. */
  lemma {:induction false} HitsAreEven(xs: seq<real>)
    requires xs != []
    ensures Hits(xs, 0.0, Target(xs)) % 2 == 0 && 2 <= Hits(xs, 0.0, Target(xs)) <= Pow2(|xs|)
  {
    hide *;
    var target := Target(xs);
    TargetIsReached(xs);
    ObservedIsHit(xs, 0.0, target);
    HitsArePaired(xs, target);
    HitsAtMostAll(xs, 0.0, target);
  }

  lemma {:induction false} TargetIsReached(xs: seq<real>)
    ensures Abs(0.0 + Sum(xs)) >= Target(xs)
  {
    hide Sum, Magnitudes;
    SumOfMagnitudes(xs);
  }

  lemma {:induction false} HitsArePaired(xs: seq<real>, target: real)
    requires xs != []
    ensures Hits(xs, 0.0, target) % 2 == 0
  {
    HitsAreSymmetric(xs[1..], xs[0], target);
    assert Hits(xs, 0.0, target) == 2 * Hits(xs[1..], xs[0], target) by {
      assert 0.0 + xs[0] == xs[0] && 0.0 - xs[0] == -xs[0];
    }
  }

  /** So the p-value lies between 2/2^m and 1. */
  lemma {:induction false} TestValueRange(diffs: seq<real>)
    requires NonZero(diffs) != []
    ensures 2.0 / Pow2(|NonZero(diffs)|) as real <= TestValue(diffs) <= 1.0
  {
    var xs := NonZero(diffs);
    HitsAreEven(xs);
    RatioBounds(2.0, Hits(xs, 0.0, Target(xs)) as real, Pow2(|xs|) as real);
  }

  /** Without a difference nothing speaks against chance. */
  lemma {:induction false} NoDifferenceIsOne(diffs: seq<real>)
    requires forall i | 0 <= i < |diffs| :: diffs[i] == 0.0
    ensures TestValue(diffs) == 1.0
  {
    AllZeroIsDropped(diffs);
    hide NonZero;
  }

  lemma {:induction false} AllZeroIsDropped(diffs: seq<real>)
    requires forall i | 0 <= i < |diffs| :: diffs[i] == 0.0
    ensures NonZero(diffs) == []
  {
    if diffs != [] {
      AllZeroIsDropped(diffs[..|diffs| - 1]);
    }
  }

  lemma {:induction false} RatioBounds(a: real, b: real, n: real)
    requires a <= b <= n && n > 0.0
    ensures a / n <= b / n <= 1.0
  {}

  // ---- Invariance ----

  /** xs with its k-th element moved to the front. */
  function Moved(xs: seq<real>, k: nat): (r: seq<real>)
    requires k < |xs|
    ensures |r| == |xs|
  {
    [xs[k]] + xs[..k] + xs[k + 1..]
  }

  lemma {:induction false} HitsOfMoved(xs: seq<real>, k: nat, s: real, target: real)
    requires k < |xs|
    ensures Hits(Moved(xs, k), s, target) == Hits(xs, s, target)
    decreases |xs|
  {
    if k == 0 {
      assert Moved(xs, 0) == xs;
    } else {
      hide Hits, Moved;
      var tail := xs[1..];
      var rest := xs[1..k] + xs[k + 1..];
      MovedTail(xs, k);
      HitsOfMoved(tail, k - 1, s + xs[0], target);
      HitsOfMoved(tail, k - 1, s - xs[0], target);
      HitsOfPair(xs[k], xs[0], rest, s, target);
      HitsCons(xs[0], [xs[k]] + rest, s, target);
      HitsCons(xs[0], tail, s, target);
    }
  }

  lemma MovedTail(xs: seq<real>, k: nat)
    requires 0 < k < |xs|
    ensures var rest := xs[1..k] + xs[k + 1..];
            && Moved(xs[1..], k - 1) == [xs[k]] + rest
            && Moved(xs, k) == [xs[k]] + ([xs[0]] + rest)
            && xs == [xs[0]] + xs[1..]
  {}

  lemma {:induction false} HitsCons(x: real, rest: seq<real>, s: real, target: real)
    ensures Hits([x] + rest, s, target) == Hits(rest, s + x, target) + Hits(rest, s - x, target)
  {
    assert ([x] + rest)[1..] == rest;
  }

  lemma {:induction false} HitsOfPair(x: real, y: real, rest: seq<real>, s: real, target: real)
    ensures Hits([x] + ([y] + rest), s, target) == Hits([y] + ([x] + rest), s, target)
  {
    hide Hits;
    HitsCons(x, [y] + rest, s, target);
    HitsCons(y, rest, s + x, target);
    HitsCons(y, rest, s - x, target);
    HitsCons(y, [x] + rest, s, target);
    HitsCons(x, rest, s + y, target);
    HitsCons(x, rest, s - y, target);
    assert s + x + y == s + y + x && s + x - y == s - y + x && s - x + y == s + y - x && s - x - y == s - y - x;
  }

  lemma {:induction false} SumOfMoved(xs: seq<real>, k: nat)
    requires k < |xs|
    ensures Sum(Moved(xs, k)) == Sum(xs)
  {
    hide Sum;
    var pre, x, post := xs[..k], [xs[k]], xs[k + 1..];
    assert xs == pre + x + post;
    SumOfParts(x, pre, post);
    SumOfParts(pre, x, post);
  }

  lemma {:induction false} SumOfParts(a: seq<real>, b: seq<real>, c: seq<real>)
    ensures Sum(a + b + c) == Sum(a) + Sum(b) + Sum(c)
  {
    hide Sum;
    SumOfConcat(a + b, c);
    SumOfConcat(a, b);
  }

  lemma {:induction false} SumOfConcat(a: seq<real>, b: seq<real>)
    ensures Sum(a + b) == Sum(a) + Sum(b)
    decreases |b|
  {
    if b == [] {
      assert a + b == a;
    } else {
      assert (a + b)[..|a + b| - 1] == a + b[..|b| - 1];
      SumOfConcat(a, b[..|b| - 1]);
    }
  }

  /** Hits, sum and scale depend on the differences, not on their order. */
  lemma {:induction false} OrderIsIrrelevant(a: seq<real>, b: seq<real>, s: real, target: real)
    requires multiset(a) == multiset(b)
    ensures |a| == |b| && Hits(a, s, target) == Hits(b, s, target) && Sum(a) == Sum(b)
            && Sum(Magnitudes(a)) == Sum(Magnitudes(b))
    decreases |a|
  {
    hide *;
    if a == [] {
      assert |multiset(b)| == 0;
      assert b == a;
    } else {
      assert a[0] in multiset(b);
      var k :| 0 <= k < |b| && b[k] == a[0];
      var front, rest := a[1..], b[..k] + b[k + 1..];
      assert a == [b[k]] + front;
      RestsAgree(a, b, k);
      OrderIsIrrelevant(front, rest, s + b[k], target);
      OrderIsIrrelevant(front, rest, s - b[k], target);
      HitsOfReplaced(b, k, front, s, target);
      SumsOfMoved(a, b, k, front, rest);
    }
  }

  lemma {:induction false} HitsOfReplaced(b: seq<real>, k: nat, front: seq<real>, s: real, target: real)
    requires k < |b| && Hits(front, s + b[k], target) == Hits(b[..k] + b[k + 1..], s + b[k], target)
    requires Hits(front, s - b[k], target) == Hits(b[..k] + b[k + 1..], s - b[k], target)
    ensures Hits([b[k]] + front, s, target) == Hits(b, s, target)
  {
    hide Hits;
    HitsOfMoved(b, k, s, target);
    assert Moved(b, k) == [b[k]] + (b[..k] + b[k + 1..]);
    HitsCons(b[k], front, s, target);
    HitsCons(b[k], b[..k] + b[k + 1..], s, target);
  }

  lemma {:induction false} RestsAgree(a: seq<real>, b: seq<real>, k: nat)
    requires multiset(a) == multiset(b) && k < |b| && a != [] && a[0] == b[k]
    ensures multiset(a[1..]) == multiset(b[..k] + b[k + 1..])
  {
    var rest := b[..k] + b[k + 1..];
    assert a == [a[0]] + a[1..];
    assert b == b[..k] + [b[k]] + b[k + 1..];
    assert multiset(a) == multiset{a[0]} + multiset(a[1..]);
    assert multiset(b) == multiset(b[..k]) + multiset{b[k]} + multiset(b[k + 1..]);
    assert multiset(a[1..]) == multiset(a) - multiset{a[0]};
    assert multiset(rest) == multiset(b) - multiset{a[0]};
  }

  lemma {:induction false} SumsOfMoved(a: seq<real>, b: seq<real>, k: nat, front: seq<real>, rest: seq<real>)
    requires k < |b| && a == [b[k]] + front && rest == b[..k] + b[k + 1..]
    requires Sum(front) == Sum(rest) && Sum(Magnitudes(front)) == Sum(Magnitudes(rest))
    ensures Sum(a) == Sum(b) && Sum(Magnitudes(a)) == Sum(Magnitudes(b))
  {
    hide Sum, Magnitudes;
    MagnitudesOfRest(b, k, front);
    SumOfReplaced(b, k, front);
    SumOfReplaced(Magnitudes(b), k, Magnitudes(front));
  }

  lemma {:induction false} MagnitudesOfRest(b: seq<real>, k: nat, front: seq<real>)
    requires k < |b|
    ensures Magnitudes(b[..k] + b[k + 1..]) == Magnitudes(b)[..k] + Magnitudes(b)[k + 1..]
    ensures Magnitudes([b[k]] + front) == [Magnitudes(b)[k]] + Magnitudes(front)
  {}

  lemma {:induction false} SumOfReplaced(b: seq<real>, k: nat, front: seq<real>)
    requires k < |b| && Sum(front) == Sum(b[..k] + b[k + 1..])
    ensures Sum([b[k]] + front) == Sum(b)
  {
    hide Sum;
    SumOfMoved(b, k);
    assert Moved(b, k) == [b[k]] + (b[..k] + b[k + 1..]);
    SumOfConcat([b[k]], front);
    SumOfConcat([b[k]], b[..k] + b[k + 1..]);
  }

  lemma {:induction false} SquaresOfConcat(a: seq<real>, b: seq<real>)
    ensures SumOfSquares(a + b) == SumOfSquares(a) + SumOfSquares(b)
    decreases |b|
  {
    if b == [] {
      assert a + b == a;
    } else {
      assert (a + b)[..|a + b| - 1] == a + b[..|b| - 1];
      SquaresOfConcat(a, b[..|b| - 1]);
    }
  }

  lemma {:induction false} OrderOfSquares(a: seq<real>, b: seq<real>)
    requires multiset(a) == multiset(b)
    ensures SumOfSquares(a) == SumOfSquares(b)
    decreases |a|
  {
    hide *;
    if a == [] {
      assert |multiset(b)| == 0;
      assert b == a;
    } else {
      assert a[0] in multiset(b);
      var k :| 0 <= k < |b| && b[k] == a[0];
      var front, pre, x, post := a[1..], b[..k], [b[k]], b[k + 1..];
      assert a == x + front && b == pre + x + post;
      RestsAgree(a, b, k);
      OrderOfSquares(front, pre + post);
      SquaresOfConcat(x, front);
      SquaresOfConcat(pre, post);
      SquaresOfConcat(pre + x, post);
      SquaresOfConcat(pre, x);
    }
  }

  /** Both p-values are unchanged by reordering the differences and by adding or removing zeros. */
  lemma {:induction false} OrderAndZerosAreIrrelevant(a: seq<real>, b: seq<real>)
    requires multiset(NonZero(a)) == multiset(NonZero(b))
    ensures TestValue(a) == TestValue(b) && ZSquared(a) == ZSquared(b)
  {
    hide Hits, Sum, Magnitudes, NonZero, Pow2, SumOfSquares;
    OrderOfSquares(NonZero(a), NonZero(b));
    var xs, ys := NonZero(a), NonZero(b);
    OrderIsIrrelevant(xs, ys, 0.0, Target(xs));
    assert Target(xs) == Target(ys);
  }

  lemma {:induction false} NonZeroKeepsOthers(diffs: seq<real>, d: real)
    ensures multiset(NonZero(diffs))[d] == if d == 0.0 then 0 else multiset(diffs)[d]
  {
    if diffs != [] {
      var front, last := diffs[..|diffs| - 1], diffs[|diffs| - 1];
      NonZeroKeepsOthers(front, d);
      assert diffs == front + [last];
    }
  }

  /** In particular for any permutation of the differences. */
  lemma {:induction false} PermutingIsIrrelevant(a: seq<real>, b: seq<real>)
    requires multiset(a) == multiset(b)
    ensures TestValue(a) == TestValue(b) && ZSquared(a) == ZSquared(b)
  {
    forall d: real ensures multiset(NonZero(a))[d] == multiset(NonZero(b))[d] {
      NonZeroKeepsOthers(a, d);
      NonZeroKeepsOthers(b, d);
    }
    OrderAndZerosAreIrrelevant(a, b);
  }

  function Negated(xs: seq<real>): (r: seq<real>)
    ensures |r| == |xs| && forall i | 0 <= i < |xs| :: r[i] == -xs[i]
  {
    seq(|xs|, i requires 0 <= i < |xs| => -xs[i])
  }

  lemma {:induction false} NegatedParts(xs: seq<real>)
    ensures NonZero(Negated(xs)) == Negated(NonZero(xs)) && Sum(Negated(xs)) == -Sum(xs)
  {
    if xs != [] {
      NegatedParts(xs[..|xs| - 1]);
      assert Negated(xs)[..|xs| - 1] == Negated(xs[..|xs| - 1]);
      assert NonZero(Negated(xs)) == Negated(NonZero(xs));
    }
  }

  /** Negating every difference, which swaps the sides, keeps the two-sided p-value. */
  lemma {:induction false} NegatingIsIrrelevant(diffs: seq<real>)
    ensures TestValue(Negated(diffs)) == TestValue(diffs) && ZSquared(Negated(diffs)) == ZSquared(diffs)
  {
    hide NonZero, Sum, Hits, Pow2, SumOfSquares;
    SquaresIgnoreSigns(NonZero(diffs));
    SquaresIgnoreSigns(Negated(NonZero(diffs)));
    var xs := NonZero(diffs);
    NegatedParts(diffs);
    NegatedParts(xs);
    assert Magnitudes(Negated(xs)) == Magnitudes(xs);
    assert Target(Negated(xs)) == Target(xs);
    HitsIgnoreSigns(xs, 0.0, Target(xs));
    HitsIgnoreSigns(Negated(xs), 0.0, Target(xs));
  }
}
