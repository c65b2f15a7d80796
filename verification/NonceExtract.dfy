/**
 Models eval/judge/nonceextract.go: finding, in a model's reply, the top-level JSON object
 that carries the call's nonce, under a budget on the bytes the brace scan may read. JSON
 decoding is a parameter.
 */
module NonceExtract {
  import opened Bytes
  import opened Optional

  const SCAN_BUDGET := 0x40_0000

  const BRACE_OPEN: Byte := 0x7B
  const BRACE_CLOSE: Byte := 0x7D
  const QUOTE: Byte := 0x22
  const BACKSLASH: Byte := 0x5C

  // ---- Brace matching ----

  datatype Scan = Scan(depth: int, inString: bool, escaped: bool)

  function Step(st: Scan, c: Byte): Scan {
    if st.inString then
      if st.escaped then st.(escaped := false)
      else if c == BACKSLASH then st.(escaped := true)
      else if c == QUOTE then st.(inString := false)
      else st
    else if c == QUOTE then st.(inString := true)
    else if c == BRACE_OPEN then st.(depth := st.depth + 1)
    else if c == BRACE_CLOSE then st.(depth := st.depth - 1)
    else st
  }

  /** The scanner's state once it has read s[start..k]. */
  function After(s: Text, start: nat, k: nat): Scan
    requires start <= k <= |s|
  {
    if k == start then Scan(0, false, false) else Step(After(s, start, k - 1), s[k - 1])
  }

  /** s[i] is a brace outside strings that brings the depth counted from start to zero. */
  predicate ClosedAt(s: Text, start: nat, i: nat) {
    start <= i < |s| && s[i] == BRACE_CLOSE && !After(s, start, i).inString && After(s, start, i).depth == 1
  }

  /** The first such brace at or after i, or -1: brace matching without a budget. */
  function NextClose(s: Text, start: nat, i: nat): (end: int)
    requires start <= i <= |s|
    ensures end == -1 || i <= end < |s|
    decreases |s| - i
  {
    if i == |s| then -1 else if ClosedAt(s, start, i) then i else NextClose(s, start, i + 1)
  }

  /**
   matchBrace. scanned is how many bytes it read, never more than the budget. It finds the close
   exactly when that lies within the budget.
   */
  method MatchBrace(s: Text, start: nat, budget: nat) returns (end: int, scanned: nat)
    requires start < |s|
    ensures scanned <= budget
    ensures end >= 0 ==> end == NextClose(s, start, start) && scanned == end - start + 1
    ensures end < 0 ==> scanned == if budget < |s| - start then budget else |s| - start
    ensures end < 0 <==> NextClose(s, start, start) == -1 || NextClose(s, start, start) >= start + budget
  {
    var depth, inString, escaped := 0, false, false;
    for i := start to |s|
      invariant i - start <= budget
      invariant Scan(depth, inString, escaped) == After(s, start, i)
      invariant NextClose(s, start, start) == NextClose(s, start, i)
    {
      if i - start >= budget {
        return -1, budget;
      }
      var c := s[i];
      if inString {
        if escaped {
          escaped := false;
        } else if c == BACKSLASH {
          escaped := true;
        } else if c == QUOTE {
          inString := false;
        }
        continue;
      }
      if c == QUOTE {
        inString := true;
      } else if c == BRACE_OPEN {
        depth := depth + 1;
      } else if c == BRACE_CLOSE {
        depth := depth - 1;
        if depth == 0 {
          return i, i - start + 1;
        }
      }
    }
    return -1, |s| - start;
  }

  // ---- Candidates ----

  datatype Span = Span(start: nat, end: nat)

  /** The first '{' at or after i, or |s|. */
  function IndexBrace(s: Text, i: nat): (k: nat)
    requires i <= |s|
    ensures i <= k <= |s| && (k < |s| ==> s[k] == BRACE_OPEN)
    ensures forall j :: i <= j < k ==> s[j] != BRACE_OPEN
    decreases |s| - i
  {
    if i == |s| || s[i] == BRACE_OPEN then i else IndexBrace(s, i + 1)
  }

  /** The balanced top-level spans from i on, found without a budget. */
  function Spans(s: Text, i: nat): (spans: seq<Span>)
    requires i <= |s|
    decreases |s| - i
  {
    var start := IndexBrace(s, i);
    if start == |s| then []
    else
      var end := NextClose(s, start, start);
      if end < 0 then Spans(s, start + 1) else [Span(start, end)] + Spans(s, end + 1)
  }

  /** Spans are inside s, start with '{', end where it closes, and each ends before the next starts. */
  lemma {:induction false} SpansAreDisjoint(s: Text, i: nat)
    requires i <= |s|
    ensures forall k :: 0 <= k < |Spans(s, i)| ==>
              var p := Spans(s, i)[k];
              i <= p.start <= p.end < |s| && s[p.start] == BRACE_OPEN && p.end == NextClose(s, p.start, p.start)
    ensures forall j, k :: 0 <= j < k < |Spans(s, i)| ==> Spans(s, i)[j].end < Spans(s, i)[k].start
    decreases |s| - i
  {
    var start := IndexBrace(s, i);
    if start < |s| {
      var end := NextClose(s, start, start);
      SpansAreDisjoint(s, if end < 0 then start + 1 else end + 1);
    }
  }

  predicate InSome(spans: seq<Span>, p: nat) {
    exists k | 0 <= k < |spans| :: spans[k].start <= p <= spans[k].end
  }

  /** A '{' outside every span never closes. */
  lemma {:induction false} SpansAreComplete(s: Text, i: nat, p: nat)
    requires i <= p < |s| && s[p] == BRACE_OPEN
    ensures NextClose(s, p, p) == -1 || InSome(Spans(s, i), p)
    decreases |s| - i
  {
    hide NextClose, IndexBrace, Spans, Reached, RunsOut, ScanCost, InSome;
    OneScan(s, i, 0);
    var start := IndexBrace(s, i);
    var end := NextClose(s, start, start);
    if end < 0 {
      if p > start {
        SpansAreComplete(s, start + 1, p);
      }
    } else {
      InSomeCons(Span(start, end), Spans(s, end + 1), p);
      if p > end {
        SpansAreComplete(s, end + 1, p);
      }
    }
  }

  lemma InSomeCons(first: Span, rest: seq<Span>, p: nat)
    ensures InSome([first] + rest, p) <==> first.start <= p <= first.end || InSome(rest, p)
  {
    var spans := [first] + rest;
    if first.start <= p <= first.end {
      assert spans[0] == first;
    }
    if InSome(rest, p) {
      var k :| 0 <= k < |rest| && rest[k].start <= p <= rest[k].end;
      assert spans[k + 1] == rest[k];
    }
  }

  // ---- The object that carries the nonce ----

  /** encoding/json: whether a text is an object with this call's nonce, and the value it decodes to. */
  datatype Json<!V(==)> = Json(carries: Text -> bool, decode: Text -> Option<V>) {
    predicate Same(a: Text, b: Text) {
      decode(a).Some? && decode(a) == decode(b)
    }
  }

  datatype Found = Found(raw: Text, matches: nat, candidates: nat)

  datatype Outcome =
    | EmptyNonce
    | NoObject(found: Found)
    | Conflict(found: Found)
    | Exhausted(found: Found)
    | Object(found: Found)

  function Candidate(s: Text, p: Span): Text {
    if p.start <= p.end < |s| then s[p.start..p.end + 1] else []
  }

  lemma CandidateText(s: Text, start: nat, end: nat)
    requires start <= end < |s|
    ensures Candidate(s, Span(start, end)) == s[start..end + 1]
  {}

  /** The verdict on a list of candidates, continuing from those already found. */
  function Settle<V(==)>(json: Json<V>, s: Text, spans: seq<Span>, found: Found): (r: Outcome)
    ensures !r.EmptyNonce? && !r.Exhausted?
    decreases |spans|
  {
    if spans == [] then (if found.matches == 0 then NoObject(found) else Object(found))
    else
      var candidate := Candidate(s, spans[0]);
      var counted := found.(candidates := found.candidates + 1);
      if !json.carries(candidate) then Settle(json, s, spans[1..], counted)
      else if found.matches == 0 then Settle(json, s, spans[1..], counted.(raw := candidate, matches := 1))
      else if !json.Same(found.raw, candidate) then Conflict(counted)
      else Settle(json, s, spans[1..], counted.(matches := found.matches + 1))
  }

  /** Settle, one candidate at a time. */
  lemma SettleCons<V>(json: Json<V>, s: Text, p: Span, rest: seq<Span>, found: Found)
    ensures var counted := found.(candidates := found.candidates + 1);
            Settle(json, s, [p] + rest, found) ==
            if !json.carries(Candidate(s, p)) then Settle(json, s, rest, counted)
            else if found.matches == 0 then Settle(json, s, rest, counted.(raw := Candidate(s, p), matches := 1))
            else if !json.Same(found.raw, Candidate(s, p)) then Conflict(counted)
            else Settle(json, s, rest, counted.(matches := found.matches + 1))
  {
    assert ([p] + rest)[1..] == rest;
  }

  lemma SettleNothing<V>(json: Json<V>, s: Text, found: Found)
    ensures Settle(json, s, [], found) == if found.matches == 0 then NoObject(found) else Object(found)
  {}

  const NOTHING := Found([], 0, 0)

  /** findNonceObject with no limit on its scan. */
  function FindUnbounded<V(==)>(json: Json<V>, s: Text, nonce: Text): (r: Outcome) {
    if nonce == [] then EmptyNonce
    else
      Settle(json, s, Spans(s, 0), NOTHING)
  }

  // ---- The budget ----

  /** What one unbudgeted brace scan from start reads. */
  function ScanCost(s: Text, start: nat): (cost: nat)
    requires start < |s|
    ensures cost > 0
  {
    var end := NextClose(s, start, start);
    if end < 0 then |s| - start else end - start + 1
  }

  /** What all brace scans from i on read without a budget. */
  function TotalCost(s: Text, i: nat): (cost: nat)
    requires i <= |s|
    decreases |s| - i
  {
    var start := IndexBrace(s, i);
    if start == |s| then 0
    else
      var end := NextClose(s, start, start);
      ScanCost(s, start) + TotalCost(s, if end < 0 then start + 1 else end + 1)
  }

  /** The scans from i on run out: one that closes needs more than is left, or one that does not needs all of it. */
  predicate RunsOut(s: Text, i: nat, budget: int)
    requires i <= |s|
    decreases |s| - i
  {
    var start := IndexBrace(s, i);
    start < |s| &&
    var end, left := NextClose(s, start, start), budget - ScanCost(s, start);
    if end < 0 then left <= 0 || RunsOut(s, start + 1, left) else left < 0 || RunsOut(s, end + 1, left)
  }

  /** The spans found before the budget runs out. */
  function Reached(s: Text, i: nat, budget: int): (spans: seq<Span>)
    requires i <= |s|
    decreases |s| - i
  {
    var start := IndexBrace(s, i);
    if start == |s| then []
    else
      var end, left := NextClose(s, start, start), budget - ScanCost(s, start);
      if end < 0 then (if left <= 0 then [] else Reached(s, start + 1, left))
      else if left < 0 then []
      else [Span(start, end)] + Reached(s, end + 1, left)
  }

  /** What one brace scan does to the rest of the search. */
  lemma OneScan(s: Text, i: nat, budget: int)
    requires i <= |s|
    ensures var start := IndexBrace(s, i);
            if start == |s| then Spans(s, i) == [] && Reached(s, i, budget) == [] && !RunsOut(s, i, budget)
            else
              var end, left := NextClose(s, start, start), budget - ScanCost(s, start);
              if end < 0 then
                && Spans(s, i) == Spans(s, start + 1)
                && (if left <= 0 then RunsOut(s, i, budget) && Reached(s, i, budget) == []
                    else RunsOut(s, i, budget) == RunsOut(s, start + 1, left)
                         && Reached(s, i, budget) == Reached(s, start + 1, left))
              else
                && Spans(s, i) == [Span(start, end)] + Spans(s, end + 1)
                && (if left < 0 then RunsOut(s, i, budget) && Reached(s, i, budget) == []
                    else RunsOut(s, i, budget) == RunsOut(s, end + 1, left)
                         && Reached(s, i, budget) == [Span(start, end)] + Reached(s, end + 1, left))
  {
    hide NextClose, IndexBrace, ScanCost;
  }

  /** Running out takes scans that cost at least the budget; without it every span is reached. */
  lemma {:induction false} RunningOutIsCostly(s: Text, i: nat, budget: int)
    requires i <= |s|
    ensures RunsOut(s, i, budget) ==> TotalCost(s, i) >= budget
    ensures Reached(s, i, budget) <= Spans(s, i)
    ensures !RunsOut(s, i, budget) ==> Reached(s, i, budget) == Spans(s, i)
    decreases |s| - i
  {
    var start := IndexBrace(s, i);
    if start < |s| {
      var end, left := NextClose(s, start, start), budget - ScanCost(s, start);
      hide NextClose, IndexBrace, ScanCost;
      RunningOutIsCostly(s, if end < 0 then start + 1 else end + 1, left);
    }
  }

  /** Enough budget for every scan is never exhausted. */
  lemma EnoughIsNeverExhausted(s: Text)
    requires TotalCost(s, 0) < 4 * 1024 * 1024
    ensures !RunsOut(s, 0, SCAN_BUDGET)
  {
    RunningOutIsCostly(s, 0, SCAN_BUDGET);
  }

  /**
   findNonceObject. It reads at most the budget in total over all its brace scans. It reports
   exhaustion exactly when the scans run out before two of the objects reached conflict, with what
   was found until then; otherwise its outcome is that of the search without a budget.
   */
  method FindNonceObject<V(==)>(json: Json<V>, s: Text, nonce: Text) returns (r: Outcome, read: nat)
    ensures read <= 4 * 1024 * 1024
    ensures r.Exhausted? ==> read == SCAN_BUDGET
    ensures !r.Exhausted? ==> r == FindUnbounded(json, s, nonce)
    ensures var reached := Settle(json, s, Reached(s, 0, SCAN_BUDGET), NOTHING);
            && (r.Exhausted? <==> nonce != [] && RunsOut(s, 0, SCAN_BUDGET) && !reached.Conflict?)
            && (r.Exhausted? ==> r.found == reached.found)
  {
    hide NextClose, IndexBrace, Json.Same, Candidate, Settle, Spans, Reached, RunsOut;
    read := 0;
    if nonce == [] {
      return EmptyNonce, read;
    }
    ghost var goal := Settle(json, s, Spans(s, 0), NOTHING);
    ghost var reached := Settle(json, s, Reached(s, 0, SCAN_BUDGET), NOTHING);
    ghost var short := RunsOut(s, 0, SCAN_BUDGET);
    var found := NOTHING;
    var budget := SCAN_BUDGET;
    var i := 0;
    while i < |s|
      invariant 0 <= i <= |s| && 0 <= budget && read == SCAN_BUDGET - budget
      invariant Settle(json, s, Spans(s, i), found) == goal
      invariant RunsOut(s, i, budget) == short
      invariant Settle(json, s, Reached(s, i, budget), found) == reached
    {
      OneScan(s, i, budget);
      var start := IndexBrace(s, i);
      if start == |s| {
        break;
      }
      var end, scanned := MatchBrace(s, start, budget);
      budget := budget - scanned;
      read := read + scanned;
      if end < 0 {
        if budget <= 0 {
          SettleNothing(json, s, found);
          return Exhausted(found), read;
        }
        i := start + 1;
        continue;
      }
      SettleCons(json, s, Span(start, end), Spans(s, end + 1), found);
      SettleCons(json, s, Span(start, end), Reached(s, end + 1, budget), found);
      i := end + 1;
      found := found.(candidates := found.candidates + 1);
      var candidate := s[start..end + 1];
      CandidateText(s, start, end);
      if !json.carries(candidate) {
        continue;
      }
      if found.matches == 0 {
        found := found.(raw := candidate);
      } else if !json.Same(found.raw, candidate) {
        return Conflict(found), read;
      }
      found := found.(matches := found.matches + 1);
    }
    OneScan(s, i, budget);
    SettleNothing(json, s, found);
    if found.matches == 0 {
      return NoObject(found), read;
    }
    return Object(found), read;
  }

  // ---- What success means ----

  /** The texts among the candidates that carry the nonce, in order. */
  function Carriers<V(==)>(json: Json<V>, s: Text, spans: seq<Span>): (texts: seq<Text>)
  {
    if spans == [] then []
    else
      var candidate := Candidate(s, spans[0]);
      (if json.carries(candidate) then [candidate] else []) + Carriers(json, s, spans[1..])
  }

  ghost predicate AllSame<V>(json: Json<V>, raw: Text, texts: seq<Text>) {
    forall t | t in texts ::
      json.decode(raw).Some? && json.decode(t).Some? && json.decode(t).value == json.decode(raw).value
  }

  lemma {:induction false} SettleAfterMatch<V>(json: Json<V>, s: Text, spans: seq<Span>, found: Found)
    requires found.matches > 0
    ensures var texts := Carriers(json, s, spans);
            var r := Settle(json, s, spans, found);
            if AllSame(json, found.raw, texts)
            then r == Object(Found(found.raw, found.matches + |texts|, found.candidates + |spans|))
            else r.Conflict?
    decreases |spans|
  {
    if spans != [] {
      var candidate := Candidate(s, spans[0]);
      var rest := Carriers(json, s, spans[1..]);
      var counted := found.(candidates := found.candidates + 1);
      if !json.carries(candidate) {
        assert Carriers(json, s, spans) == rest;
        SettleAfterMatch(json, s, spans[1..], counted);
      } else {
        assert Carriers(json, s, spans) == [candidate] + rest && candidate in Carriers(json, s, spans);
        if json.Same(found.raw, candidate) {
          SettleAfterMatch(json, s, spans[1..], counted.(matches := found.matches + 1));
        }
      }
    }
  }

  lemma {:induction false} SettleMeaning<V>(json: Json<V>, s: Text, spans: seq<Span>, found: Found)
    requires found.matches == 0
    ensures var texts := Carriers(json, s, spans);
            var r := Settle(json, s, spans, found);
            && (r.NoObject? <==> texts == [])
            && (r.Object? <==> texts != [] && AllSame(json, texts[0], texts[1..]))
            && (r.Object? ==> r.found == Found(texts[0], |texts|, found.candidates + |spans|))
    decreases |spans|
  {
    if spans != [] {
      var candidate := Candidate(s, spans[0]);
      var rest := Carriers(json, s, spans[1..]);
      var counted := found.(candidates := found.candidates + 1);
      if !json.carries(candidate) {
        assert Carriers(json, s, spans) == rest;
        SettleMeaning(json, s, spans[1..], counted);
      } else {
        assert Carriers(json, s, spans) == [candidate] + rest;
        assert Carriers(json, s, spans)[1..] == rest;
        SettleAfterMatch(json, s, spans[1..], counted.(raw := candidate, matches := 1));
      }
    }
  }

  /**
   The search succeeds exactly when some balanced span carries the nonce and all that do are
   equal as JSON values; it returns the first of them and counts them all.
   */
  lemma SuccessMeansOneValue<V>(json: Json<V>, s: Text, nonce: Text)
    requires nonce != []
    ensures var texts := Carriers(json, s, Spans(s, 0));
            var r := FindUnbounded(json, s, nonce);
            && (r.Object? <==> texts != [] && AllSame(json, texts[0], texts[1..]))
            && (r.NoObject? <==> texts == [])
            && (r.Object? ==> r.found == Found(texts[0], |texts|, |Spans(s, 0)|))
  {
    SettleMeaning(json, s, Spans(s, 0), NOTHING);
  }
}
