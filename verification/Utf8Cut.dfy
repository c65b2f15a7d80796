/**
 Models the two byte-count cutters: CapFinalAssistantText in types/result.go and
 trimPartialRune in eval/judge/gitdiff.go. Valid text follows sections 3 and 4 of RFC 3629.
 */
module Utf8Cut {
  import opened Bytes

  // ---- UTF-8, section 4 of RFC 3629 ----

  predicate Tail(b: Byte) { 0x80 <= b <= 0xBF }

  /** One character: the UTF8-1, UTF8-2, UTF8-3 and UTF8-4 productions. */
  predicate IsRune(r: Text) {
    || (|r| == 1 && r[0] <= 0x7F)
    || (|r| == 2 && 0xC2 <= r[0] <= 0xDF && Tail(r[1]))
    || (|r| == 3 && Tail(r[2])
        && (|| (r[0] == 0xE0 && 0xA0 <= r[1] <= 0xBF)
            || ((0xE1 <= r[0] <= 0xEC || 0xEE <= r[0] <= 0xEF) && Tail(r[1]))
            || (r[0] == 0xED && 0x80 <= r[1] <= 0x9F)))
    || (|r| == 4 && Tail(r[2]) && Tail(r[3])
        && (|| (r[0] == 0xF0 && 0x90 <= r[1] <= 0xBF)
            || (0xF1 <= r[0] <= 0xF3 && Tail(r[1]))
            || (r[0] == 0xF4 && 0x80 <= r[1] <= 0x8F)))
  }

  /** The bytes a character with this first byte takes; 1 for a byte that starts none. */
  function Size(first: Byte): (n: nat)
    ensures 1 <= n <= 4
  {
    if 0xC2 <= first <= 0xDF then 2
    else if 0xE0 <= first <= 0xEF then 3
    else if 0xF0 <= first <= 0xF4 then 4
    else 1
  }

  /** A whole character begins at b. */
  predicate RuneAt(s: Text, b: nat) {
    b < |s| && b + Size(s[b]) <= |s| && IsRune(s[b..b + Size(s[b])])
  }

  /** A sequence of characters. */
  predicate Valid(s: Text) {
    s == [] || (RuneAt(s, 0) && Valid(s[Size(s[0])..]))
  }

  // ---- unicode/utf8, as the cutters call it ----

  predicate RuneStart(b: Byte) { !Tail(b) }

  /** Whether b begins with a complete encoding; an invalid one counts as complete. */
  predicate FullRune(b: Text) {
    if |b| == 0 then false
    else if |b| >= Size(b[0]) then true
    else
      var low := if b[0] == 0xE0 then 0xA0 else if b[0] == 0xF0 then 0x90 else 0x80;
      var high := if b[0] == 0xED then 0x9F else if b[0] == 0xF4 then 0x8F else 0xBF;
      (|b| > 1 && !(low <= b[1] <= high)) || (|b| > 2 && !Tail(b[2]))
  }

  // ---- The cutters ----

  const MARKER := Ascii("... [truncated by harness]")

  /** The end CapFinalAssistantText backs off to from n. */
  function CapEnd(s: Text, n: nat): (end: nat)
    requires n < |s|
    ensures end <= n
  {
    if n == 0 || RuneStart(s[n]) then n else CapEnd(s, n - 1)
  }

  method CapFinalAssistantText(s: Text, maxBytes: int) returns (capped: Text, truncated: bool)
    ensures truncated <==> maxBytes < |s| && s != []
    ensures !truncated ==> capped == s
    ensures truncated ==> capped == s[..CapEnd(s, if maxBytes < 0 then 0 else maxBytes)] + MARKER
  {
    var limit := maxBytes;
    if limit < 0 {
      limit := 0;
    }
    if |s| <= limit {
      return s, false;
    }
    var end := limit;
    while end > 0 && !RuneStart(s[end])
      invariant 0 <= end <= limit
      invariant CapEnd(s, end) == CapEnd(s, limit)
    {
      end := end - 1;
    }
    return s[..end] + MARKER, true;
  }

  /** The end trimPartialRune keeps, looking back from i at most four bytes. */
  function TrimEnd(b: Text, i: int): (end: nat)
    requires i < |b|
    ensures end <= |b|
    decreases i
  {
    if i < 0 || i < |b| - 4 then |b|
    else if RuneStart(b[i]) then (if FullRune(b[i..]) then |b| else i)
    else TrimEnd(b, i - 1)
  }

  method TrimPartialRune(b: Text) returns (kept: Text)
    ensures kept == b[..TrimEnd(b, |b| - 1)]
  {
    var i := |b| - 1;
    while i >= 0 && i >= |b| - 4
      invariant i < |b|
      invariant TrimEnd(b, |b| - 1) == TrimEnd(b, i)
    {
      if RuneStart(b[i]) {
        if !FullRune(b[i..]) {
          return b[..i];
        }
        return b;
      }
      i := i - 1;
    }
    return b;
  }

  // ---- Characters inside a valid text ----

  /** Where the character that covers byte p begins. */
  function Begin(s: Text, p: nat): (b: nat)
    requires Valid(s) && p < |s|
    ensures b <= p
  {
    var w := Size(s[0]);
    if p < w then 0 else w + Begin(s[w..], p - w)
  }

  /** A prefix that holds the first character is valid exactly when its rest is. */
  lemma ValidPrefix(s: Text, k: nat)
    requires RuneAt(s, 0) && Size(s[0]) <= k <= |s|
    ensures Valid(s[..k]) <==> Valid(s[Size(s[0])..][..k - Size(s[0])])
  {
    var w := Size(s[0]);
    assert s[..k][0] == s[0] && s[..k][0..w] == s[0..w];
    assert s[..k][w..] == s[w..][..k - w];
  }

  /** The character that begins at b covers byte p. */
  predicate CoversByte(s: Text, b: nat, p: nat) {
    RuneAt(s, b) && b <= p < b + Size(s[b])
  }

  lemma CoversShift(s: Text, w: nat, b: nat, p: nat)
    requires w <= |s| && w <= p && CoversByte(s[w..], b, p - w)
    ensures CoversByte(s, w + b, p)
  {
    var n := Size(s[w..][b]);
    assert s[w..][b..b + n] == s[w + b..w + b + n];
  }

  lemma FirstCovers(s: Text, p: nat)
    requires Valid(s) && s != []
    ensures Size(s[0]) <= |s| && (p < Size(s[0]) ==> CoversByte(s, 0, p))
  {
    hide IsRune;
  }

  lemma {:induction false} BeginCovers(s: Text, p: nat)
    requires Valid(s) && p < |s|
    ensures CoversByte(s, Begin(s, p), p)
    decreases |s|
  {
    hide CoversByte;
    hide RuneAt;
    hide Size;
    var w := Size(s[0]);
    FirstCovers(s, p);
    if p >= w {
      BeginCovers(s[w..], p - w);
      CoversShift(s, w, Begin(s[w..], p - w), p);
    }
  }

  lemma {:induction false} BeginIsBoundary(s: Text, p: nat)
    requires Valid(s) && p < |s|
    ensures Valid(s[..Begin(s, p)])
    decreases |s|
  {
    var w := Size(s[0]);
    if p >= w {
      BeginIsBoundary(s[w..], p - w);
      ValidPrefix(s, Begin(s, p));
    }
  }

  lemma {:induction false} NoBoundaryInside(s: Text, p: nat, k: nat)
    requires Valid(s) && p < |s| && Begin(s, p) < k <= p
    ensures !Valid(s[..k])
    decreases |s|
  {
    var w := Size(s[0]);
    if p >= w {
      NoBoundaryInside(s[w..], p - w, k - w);
      ValidPrefix(s, k);
    } else {
      assert s[..k][0] == s[0];
    }
  }

  /** Of a character's bytes, only the first is a rune start. */
  lemma RuneBytes(s: Text, b: nat, k: nat)
    requires RuneAt(s, b) && b <= k < b + Size(s[b])
    ensures RuneStart(s[k]) <==> k == b
  {
    var r := s[b..b + Size(s[b])];
    assert r[0] == s[b] && r[k - b] == s[k];
  }

  lemma BytesAround(s: Text, p: nat)
    requires Valid(s) && p < |s|
    ensures var b := Begin(s, p);
            RuneStart(s[b]) && (forall k :: b < k <= p ==> !RuneStart(s[k]))
  {
    BeginCovers(s, p);
    hide IsRune;
    hide Valid;
    hide Begin;
    hide Size;
    hide RuneStart;
    var b := Begin(s, p);
    RuneBytes(s, b, b);
    forall k | b < k <= p ensures !RuneStart(s[k]) {
      RuneBytes(s, b, k);
    }
  }

  lemma {:induction false} CapEndIsLastStart(s: Text, n: nat, b: nat)
    requires b <= n < |s| && RuneStart(s[b]) && forall k :: b < k <= n ==> !RuneStart(s[k])
    ensures CapEnd(s, n) == b
  {
    if b < n {
      CapEndIsLastStart(s, n - 1, b);
    }
  }

  lemma {:induction false} TrimEndFindsLastStart(b: Text, i: int, start: nat)
    requires start <= i < |b| <= start + 4
    requires RuneStart(b[start]) && forall k :: start < k <= i ==> !RuneStart(b[k])
    ensures TrimEnd(b, i) == if FullRune(b[start..]) then |b| else start
  {
    if start < i {
      TrimEndFindsLastStart(b, i - 1, start);
    }
  }

  lemma CapEndOnValid(s: Text, n: nat)
    requires Valid(s) && n < |s|
    ensures CapEnd(s, n) == Begin(s, n)
  {
    BytesAround(s, n);
    CapEndIsLastStart(s, n, Begin(s, n));
  }

  /** A character cut short by n is not complete; one that ends at n is. */
  lemma FullRuneAtCut(s: Text, n: nat, b: nat)
    requires RuneAt(s, b) && b < n <= b + Size(s[b])
    ensures FullRune(s[..n][b..]) <==> n == b + Size(s[b])
  {
    var r := s[b..b + Size(s[b])];
    assert s[..n][b..] == r[..n - b];
  }

  /** The next byte belongs to the same character, or starts one. */
  lemma {:induction false} BeginOfNext(s: Text, n: nat)
    requires Valid(s) && 0 < n < |s|
    ensures var b := Begin(s, n - 1);
            Begin(s, n) == if n < b + Size(s[b]) then b else n
    decreases |s|
  {
    hide IsRune;
    hide Size;
    var w := Size(s[0]);
    if n > w {
      BeginOfNext(s[w..], n - w);
    }
  }

  lemma {:induction false} TrimEndOnValid(s: Text, n: nat)
    requires Valid(s) && n < |s|
    ensures TrimEnd(s[..n], n - 1) == Begin(s, n)
  {
    hide *;
    if n == 0 {
      NothingCut(s);
    } else {
      var b := Begin(s, n - 1);
      BytesAround(s, n - 1);
      BeginCovers(s, n - 1);
      BeginOfNext(s, n);
      CutAtRune(s, n, b);
    }
  }

  lemma {:induction false} NothingCut(s: Text)
    requires Valid(s) && s != []
    ensures TrimEnd(s[..0], -1) == 0 == Begin(s, 0)
  {
    hide Valid;
  }

  /** The cut at n, when the character that begins at b covers byte n - 1. */
  lemma {:induction false} CutAtRune(s: Text, n: nat, b: nat)
    requires 0 < n <= |s| && CoversByte(s, b, n - 1)
    requires RuneStart(s[b]) && forall k :: b < k <= n - 1 ==> !RuneStart(s[k])
    ensures TrimEnd(s[..n], n - 1) == if n < b + Size(s[b]) then b else n
  {
    hide IsRune, FullRune, TrimEnd, RuneStart;
    var cut := s[..n];
    assert forall k | b <= k < n :: cut[k] == s[k];
    TrimEndFindsLastStart(cut, n - 1, b);
    FullRuneAtCut(s, n, b);
  }

  /**
   On every valid text and every cut inside it, both cutters keep the same prefix: the longest
   one of at most n bytes that is itself valid, at most three bytes short of n.
   */
  lemma CuttersAgree(s: Text, n: nat)
    requires Valid(s) && n < |s|
    ensures var end := CapEnd(s, n);
            && end == TrimEnd(s[..n], n - 1)
            && Valid(s[..end])
            && (forall k :: end < k <= n ==> !Valid(s[..k]))
            && n - end <= 3
  {
    CapEndOnValid(s, n);
    TrimEndOnValid(s, n);
    BeginIsBoundary(s, n);
    BeginCovers(s, n);
    forall k | Begin(s, n) < k <= n ensures !Valid(s[..k]) {
      NoBoundaryInside(s, n, k);
    }
  }
}
