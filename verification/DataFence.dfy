/**
 Models eval/judge/datafence.go: the markers that fence untrusted text in a
 judge prompt, and the rewriting that stops the text from forging one.
 */
module DataFence {
  import opened Bytes

  /** The three bytes that start every marker. */
  const OPENING: Text := [LT, LT, LT]

  /** Whether "<<<" occurs in s at i. */
  predicate OpensAt(s: Text, i: int) {
    0 <= i && i + 3 <= |s| && s[i] == LT && s[i + 1] == LT && s[i + 2] == LT
  }

  /** Whether s contains "<<<". */
  predicate HasOpening(s: Text) {
    exists i | 0 <= i < |s| :: OpensAt(s, i)
  }

  /** The rewriting as a transducer; run counts the '<' just emitted. */
  function Neutral(s: Text, run: nat): (r: Text)
    requires run <= 2
  {
    if s == [] then []
    else if s[0] != LT then [s[0]] + Neutral(s[1..], 0)
    else if run == 2 then [SPACE, LT] + Neutral(s[1..], 1)
    else [LT] + Neutral(s[1..], run + 1)
  }

  /** The transducer's state after reading s. */
  function RunAfter(s: Text, run: nat): (r: nat)
    requires run <= 2
    ensures r <= 2
  {
    if s == [] then run
    else if s[0] != LT then RunAfter(s[1..], 0)
    else if run == 2 then RunAfter(s[1..], 1)
    else RunAfter(s[1..], run + 1)
  }

  /** What the transducer writes for one byte. */
  function Emitted(b: Byte, run: nat): (t: Text)
    ensures t == if b == LT && run == 2 then [SPACE, LT] else [b]
  {
    if b == LT && run == 2 then [SPACE, LT] else [b]
  }

  /** One more byte read extends the output by what that byte emits. */
  lemma NeutralExtends(s: Text, i: nat)
    requires i < |s|
    ensures Neutral(s[..i + 1], 0) == Neutral(s[..i], 0) + Emitted(s[i], RunAfter(s[..i], 0))
    ensures RunAfter(s[..i + 1], 0) == if s[i] != LT then 0 else if RunAfter(s[..i], 0) == 2 then 1
            else RunAfter(s[..i], 0) + 1
  {
    var run := RunAfter(s[..i], 0);
    assert s[..i + 1] == s[..i] + [s[i]];
    NeutralOfConcat(s[..i], [s[i]], 0);
    RunAfterConcat(s[..i], [s[i]], 0);
    assert [s[i]][1..] == [];
    assert Neutral([s[i]], run) == Emitted(s[i], run);
  }

  lemma {:induction false} RunAfterConcat(p: Text, q: Text, run: nat)
    requires run <= 2
    ensures RunAfter(p + q, run) == RunAfter(q, RunAfter(p, run))
    decreases |p|
  {
    if p == [] {
      assert p + q == q;
    } else {
      assert (p + q)[1..] == p[1..] + q;
      RunAfterConcat(p[1..], q, if p[0] != LT then 0 else if run == 2 then 1 else run + 1);
    }
  }

  /** neutraliseFenceMarkers: the early return, then the byte loop with its builder. */
  method NeutraliseFenceMarkers(s: Text) returns (out: Text)
    ensures out == Neutral(s, 0)
  {
    if !HasOpening(s) {
      IdentityExactlyWithoutOpening(s);
      return s;
    }
    out := [];
    var run := 0;
    assert s[..0] == [];
    for i := 0 to |s|
      invariant run <= 2 && run == RunAfter(s[..i], 0)
      invariant out == Neutral(s[..i], 0)
    {
      hide *;
      NeutralExtends(s, i);
      if s[i] == LT {
        if run == 2 {
          out := out + [SPACE];
          run := 0;
        }
        run := run + 1;
      } else {
        run := 0;
      }
      out := out + [s[i]];
    }
    assert s[..|s|] == s;
  }

  // ---- No marker survives ----

  /** s continues a text that ends in run '<' bytes without completing "<<<". */
  predicate Safe(s: Text, run: nat) {
    if s == [] then true
    else if s[0] != LT then Safe(s[1..], 0)
    else run < 2 && Safe(s[1..], run + 1)
  }

  /** Putting other bytes than '<' in front moves each opening along and adds none. */
  lemma OpeningsShift(head: Text, s: Text)
    requires |head| > 0 && head[|head| - 1] != LT
    requires forall k | 0 <= k < |head| - 1 :: head[k] == LT
    requires |head| <= 3
    ensures HasOpening(head + s) <==> HasOpening(s)
  {
    var w := head + s;
    if HasOpening(w) {
      var i :| 0 <= i < |w| && OpensAt(w, i);
      assert w[|head| - 1] != LT;
      assert i >= |head|;
      assert OpensAt(s, i - |head|);
    }
    if HasOpening(s) {
      var i :| 0 <= i < |s| && OpensAt(s, i);
      assert OpensAt(w, i + |head|);
    }
  }

  function Lts(run: nat): (t: Text)
    requires run <= 2
    ensures |t| == run
  {
    if run == 0 then [] else if run == 1 then [LT] else [LT, LT]
  }

  lemma {:induction false} SafeMeansNoOpening(s: Text, run: nat)
    requires run <= 2
    ensures Safe(s, run) <==> !HasOpening(Lts(run) + s)
    decreases |s|
  {
    hide HasOpening;
    hide Lts;
    if s == [] {
      ShortHasNone(Lts(run) + s);
    } else if s[0] != LT {
      SafeMeansNoOpening(s[1..], 0);
      ReadOther(s, run);
    } else {
      ReadLt(s, run);
      if run < 2 {
        SafeMeansNoOpening(s[1..], run + 1);
      }
    }
  }

  lemma ReadOther(s: Text, run: nat)
    requires run <= 2 && s != [] && s[0] != LT
    ensures HasOpening(Lts(run) + s) <==> HasOpening(Lts(0) + s[1..])
  {
    hide HasOpening;
    assert Lts(0) + s[1..] == s[1..];
    OpeningsShift(Lts(run) + [s[0]], s[1..]);
    assert Lts(run) + [s[0]] + s[1..] == Lts(run) + s;
  }

  lemma ReadLt(s: Text, run: nat)
    requires run <= 2 && s != [] && s[0] == LT
    ensures if run < 2 then Lts(run) + s == Lts(run + 1) + s[1..] else HasOpening(Lts(run) + s)
  {
    hide HasOpening;
    if run < 2 {
      assert Lts(run + 1) == Lts(run) + [LT];
    } else {
      ThreeOpen(Lts(run) + s);
    }
  }

  lemma ShortHasNone(s: Text)
    requires |s| < 3
    ensures !HasOpening(s)
  {}

  lemma ThreeOpen(s: Text)
    requires |s| >= 3 && s[0] == s[1] == s[2] == LT
    ensures HasOpening(s)
  {
    assert OpensAt(s, 0);
  }

  lemma {:induction false} NeutralIsSafe(s: Text, run: nat)
    requires run <= 2
    ensures Safe(Neutral(s, run), run)
  {
    if s != [] {
      if s[0] != LT {
        NeutralIsSafe(s[1..], 0);
        assert Neutral(s, run)[1..] == Neutral(s[1..], 0);
      } else if run == 2 {
        NeutralIsSafe(s[1..], 1);
        assert Neutral(s, run)[1..] == [LT] + Neutral(s[1..], 1);
        assert ([LT] + Neutral(s[1..], 1))[1..] == Neutral(s[1..], 1);
      } else {
        NeutralIsSafe(s[1..], run + 1);
        assert Neutral(s, run)[1..] == Neutral(s[1..], run + 1);
      }
    }
  }

  lemma {:induction false} SafeIsFixed(s: Text, run: nat)
    requires run <= 2 && Safe(s, run)
    ensures Neutral(s, run) == s
  {
    if s != [] {
      SafeIsFixed(s[1..], if s[0] == LT then run + 1 else 0);
    }
  }

  /** The result never contains "<<<", so content cannot open or close a fence. */
  lemma NeutralHasNoOpening(s: Text)
    ensures !HasOpening(Neutral(s, 0))
  {
    NeutralIsSafe(s, 0);
    SafeMeansNoOpening(Neutral(s, 0), 0);
    assert Lts(0) + Neutral(s, 0) == Neutral(s, 0);
  }

  /** The rewriting changes a text exactly when it contains "<<<". */
  lemma IdentityExactlyWithoutOpening(s: Text)
    ensures Neutral(s, 0) == s <==> !HasOpening(s)
  {
    NeutralHasNoOpening(s);
    SafeMeansNoOpening(s, 0);
    assert Lts(0) + s == s;
    if !HasOpening(s) {
      SafeIsFixed(s, 0);
    }
  }

  lemma NeutralIdempotent(s: Text)
    ensures Neutral(Neutral(s, 0), 0) == Neutral(s, 0)
  {
    NeutralHasNoOpening(s);
    IdentityExactlyWithoutOpening(Neutral(s, 0));
  }

  // ---- What the rewriting adds, and how it treats prefixes ----

  /** t is s with spaces inserted, each of them between two '<' bytes. */
  predicate SpacedOut(s: Text, t: Text, afterLT: bool) {
    if t == [] then s == []
    else
      || (s != [] && t[0] == s[0] && SpacedOut(s[1..], t[1..], s[0] == LT))
      || (afterLT && s != [] && s[0] == LT && |t| > 1 && t[0] == SPACE && t[1] == LT
          && SpacedOut(s[1..], t[2..], true))
  }

  lemma {:induction false} NeutralOnlyInsertsSpaces(s: Text, run: nat)
    requires run <= 2
    ensures SpacedOut(s, Neutral(s, run), run > 0)
  {
    if s != [] {
      var t := Neutral(s, run);
      if s[0] != LT {
        NeutralOnlyInsertsSpaces(s[1..], 0);
        assert t[1..] == Neutral(s[1..], 0);
      } else if run == 2 {
        NeutralOnlyInsertsSpaces(s[1..], 1);
        assert t[2..] == Neutral(s[1..], 1);
      } else {
        NeutralOnlyInsertsSpaces(s[1..], run + 1);
        assert t[1..] == Neutral(s[1..], run + 1);
      }
    }
  }

  /** Reading p then q is reading p + q: prefixes map to prefixes. */
  lemma {:induction false} NeutralOfConcat(p: Text, q: Text, run: nat)
    requires run <= 2
    ensures Neutral(p + q, run) == Neutral(p, run) + Neutral(q, RunAfter(p, run))
    decreases |p|
  {
    if p == [] {
      assert p + q == q;
    } else {
      assert (p + q)[1..] == p[1..] + q;
      NeutralOfConcat(p[1..], q, if p[0] != LT then 0 else if run == 2 then 1 else run + 1);
    }
  }

  lemma NeutralIsPrefixMonotone(s: Text, m: nat, n: nat)
    requires m <= n <= |s|
    ensures Neutral(s[..m], 0) <= Neutral(s[..n], 0)
  {
    assert s[..n] == s[..m] + s[m..n];
    NeutralOfConcat(s[..m], s[m..n], 0);
  }

  lemma {:induction false} NeutralNeverShrinks(s: Text, run: nat)
    requires run <= 2
    ensures |s| <= |Neutral(s, run)|
  {
    if s != [] {
      NeutralNeverShrinks(s[1..], if s[0] != LT then 0 else if run == 2 then 1 else run + 1);
    }
  }

  // ---- Fences ----

  datatype Fence = Fence(nonce: Text) {
    function Open(mark: Text): Text {
      OPENING + mark + Ascii("_") + nonce + Ascii(">>>")
    }

    function Close(mark: Text): Text {
      Ascii("<<<END_") + mark + Ascii("_") + nonce + Ascii(">>>")
    }

    function Wrap(mark: Text, content: Text): Text {
      Open(mark) + [NEWLINE] + Neutral(content, 0) + [NEWLINE] + Close(mark)
    }
  }

  lemma OpeningBytes(s: Text, i: int)
    ensures OccursAt(s, OPENING, i) <==> OpensAt(s, i)
  {
    if 0 <= i && i + 3 <= |s| {
      assert s[i..i + 3] == [s[i], s[i + 1], s[i + 2]];
    }
  }

  /** A marker opens at its start and nowhere after. */
  predicate IsMarker(m: Text) {
    && |m| > 3 && OpensAt(m, 0) && forall k | 3 <= k < |m| :: m[k] != LT
  }

  lemma FenceMarkers(f: Fence, mark: Text)
    requires LT !in mark && LT !in f.nonce
    ensures IsMarker(f.Open(mark)) && IsMarker(f.Close(mark))
  {
    var open, close := f.Open(mark), f.Close(mark);
    var tail := Ascii("_") + f.nonce + Ascii(">>>");
    assert LT !in Ascii("_") && LT !in Ascii(">>>");
    assert LT !in tail;
    assert open == OPENING + (mark + tail);
    assert Ascii("<<<END_") == OPENING + Ascii("END_");
    assert LT !in Ascii("END_");
    assert close == OPENING + (Ascii("END_") + mark + tail);
  }

  lemma MarkersFrameBody(open: Text, body: Text, close: Text, i: int)
    requires IsMarker(open) && IsMarker(close) && !HasOpening(body)
    ensures OpensAt(open + [NEWLINE] + body + [NEWLINE] + close, i) <==> i == 0 || i == |open| + 2 + |body|
  {
    var w := open + [NEWLINE] + body + [NEWLINE] + close;
    var closing := |open| + 2 + |body|;
    assert w[|open|] == NEWLINE && w[closing - 1] == NEWLINE;
    assert w[..|open|] == open && w[|open| + 1..closing - 1] == body && w[closing..] == close;
    if OpensAt(w, i) {
      if i <= |open| {
        assert i == 0;
      } else if i < closing - 1 {
        assert OpensAt(body, i - |open| - 1);
      } else {
        assert OpensAt(close, i - closing);
      }
    }
  }

  /**
   For any content, and any mark and nonce without '<', the fenced block contains "<<<" at
   its own opening and closing markers and nowhere else.
   */
  lemma WrapHasExactlyItsOwnMarkers(f: Fence, mark: Text, content: Text)
    requires LT !in mark && LT !in f.nonce
    ensures forall i :: OccursAt(f.Wrap(mark, content), OPENING, i)
                        <==> i == 0 || i == |f.Open(mark)| + 2 + |Neutral(content, 0)|
  {
    FenceMarkers(f, mark);
    NeutralHasNoOpening(content);
    forall i
      ensures OccursAt(f.Wrap(mark, content), OPENING, i) <==> i == 0 || i == |f.Open(mark)| + 2 + |Neutral(content, 0)|
    {
      OpeningBytes(f.Wrap(mark, content), i);
      MarkersFrameBody(f.Open(mark), Neutral(content, 0), f.Close(mark), i);
    }
  }
}
