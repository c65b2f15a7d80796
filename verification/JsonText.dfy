/**
 JSON objects as a model prints them, with braces and escaped quotes inside their strings, and the
 proof that the brace scanner of eval/judge/nonceextract.go finds each of them whole.
 */
module JsonText {
  import opened Bytes
  import opened NonceExtract

  /** An object's text: bytes outside strings that are neither quotes nor braces, strings, and objects. */
  datatype Part = Raw(b: Byte) | Quoted(content: Text) | Braced(parts: seq<Part>)

  predicate Legal(p: Part) {
    match p
    case Raw(b) => b != QUOTE && b != BRACE_OPEN && b != BRACE_CLOSE
    case Quoted(_) => true
    case Braced(parts) => forall q | q in parts :: Legal(q)
  }

  /** Quotes and backslashes are escaped; anything else, braces included, stands as it is. */
  function Escape(content: Text): (t: Text) {
    if content == [] then []
    else
      (if content[0] == QUOTE || content[0] == BACKSLASH then [BACKSLASH, content[0]] else [content[0]])
      + Escape(content[1..])
  }

  function Print(p: Part): (t: Text)
    ensures t != []
    decreases p, 1
  {
    match p
    case Raw(b) => [b]
    case Quoted(content) => [QUOTE] + Escape(content) + [QUOTE]
    case Braced(parts) => [BRACE_OPEN] + PrintAll(parts) + [BRACE_CLOSE]
  }

  function PrintAll(parts: seq<Part>): (t: Text)
    decreases parts, 0
  {
    if parts == [] then [] else Print(parts[0]) + PrintAll(parts[1..])
  }

  // ---- The scanner over a printed part ----

  /** t stands in s at k. */
  predicate Stands(s: Text, k: nat, t: Text) { k + |t| <= |s| && s[k..k + |t|] == t }

  lemma StandsParts(s: Text, k: nat, a: Text, b: Text)
    requires Stands(s, k, a + b)
    ensures Stands(s, k, a) && Stands(s, k + |a|, b)
  {
    assert (a + b)[..|a|] == a && (a + b)[|a|..] == b;
    assert s[k..k + |a + b|][..|a|] == s[k..k + |a|] && s[k..k + |a + b|][|a|..] == s[k + |a|..k + |a| + |b|];
  }

  lemma StandsByte(s: Text, k: nat, b: Byte)
    requires Stands(s, k, [b])
    ensures k < |s| && s[k] == b
  {}

  /** Between i and j the scan from start neither closes nor ends elsewhere than in this state. */
  ghost predicate Passes(s: Text, start: nat, i: nat, j: nat, was: Scan, now: Scan)
    requires start <= i <= j <= |s|
  {
    After(s, start, i) == was ==> After(s, start, j) == now && forall k | i <= k < j :: !ClosedAt(s, start, k)
  }

  lemma {:induction false} EscapeScan(s: Text, start: nat, i: nat, content: Text, depth: int)
    requires start <= i && Stands(s, i, Escape(content))
    ensures Passes(s, start, i, i + |Escape(content)|, Scan(depth, true, false), Scan(depth, true, false))
    decreases |content|
  {
    if content != [] {
      var c, rest := content[0], Escape(content[1..]);
      var head: Text := if c == QUOTE || c == BACKSLASH then [BACKSLASH, c] else [c];
      assert Escape(content) == head + rest;
      StandsParts(s, i, head, rest);
      EscapeScan(s, start, i + |head|, content[1..], depth);
      ByteScan(s, start, i, c, depth);
      hide Escape, After, ClosedAt;
    }
  }

  /** One byte of a string, escaped where it must be. */
  lemma {:induction false} ByteScan(s: Text, start: nat, i: nat, c: Byte, depth: int)
    requires start <= i && Stands(s, i, if c == QUOTE || c == BACKSLASH then [BACKSLASH, c] else [c])
    ensures var n := if c == QUOTE || c == BACKSLASH then 2 else 1;
            Passes(s, start, i, i + n, Scan(depth, true, false), Scan(depth, true, false))
  {
    hide After;
    if c == QUOTE || c == BACKSLASH {
      assert [BACKSLASH, c] == [BACKSLASH] + [c];
      StandsParts(s, i, [BACKSLASH], [c]);
      StandsByte(s, i, BACKSLASH);
      StandsByte(s, i + 1, c);
      AfterNext(s, start, i);
      AfterNext(s, start, i + 1);
    } else {
      StandsByte(s, i, c);
      AfterNext(s, start, i);
    }
  }

  lemma {:induction false} AfterNext(s: Text, start: nat, k: nat)
    requires start <= k < |s|
    ensures After(s, start, k + 1) == Step(After(s, start, k), s[k])
  {}

  lemma {:induction false} PartScan(s: Text, start: nat, i: nat, p: Part, depth: int)
    requires start <= i && Legal(p) && Stands(s, i, Print(p)) && depth >= 1
    ensures Passes(s, start, i, i + |Print(p)|, Scan(depth, false, false), Scan(depth, false, false))
    decreases p, 1
  {
    hide After, ClosedAt, Passes, Escape;
    match p
    case Raw(b) => RawScan(s, start, i, b, depth);
    case Quoted(content) =>
      Framed(s, i, QUOTE, Escape(content), QUOTE);
      hide Stands;
      EscapeScan(s, start, i + 1, content, depth);
      QuotedScan(s, start, i, |Escape(content)|, depth);
    case Braced(parts) =>
      Framed(s, i, BRACE_OPEN, PrintAll(parts), BRACE_CLOSE);
      hide Stands;
      PartsScan(s, start, i + 1, parts, depth + 1);
      BracedScan(s, start, i, |PrintAll(parts)|, depth);
  }

  lemma Framed(s: Text, i: nat, open: Byte, body: Text, close: Byte)
    requires Stands(s, i, [open] + body + [close])
    ensures i + |body| + 1 < |s| && s[i] == open && Stands(s, i + 1, body) && s[i + 1 + |body|] == close
  {
    assert [open] + body + [close] == [open] + (body + [close]);
    StandsParts(s, i, [open], body + [close]);
    StandsParts(s, i + 1, body, [close]);
    StandsByte(s, i, open);
    StandsByte(s, i + 1 + |body|, close);
  }

  lemma {:induction false} RawScan(s: Text, start: nat, i: nat, b: Byte, depth: int)
    requires start <= i && Legal(Raw(b)) && Stands(s, i, [b])
    ensures Passes(s, start, i, i + 1, Scan(depth, false, false), Scan(depth, false, false))
  {
    StandsByte(s, i, b);
  }

  lemma {:induction false} QuotedScan(s: Text, start: nat, i: nat, n: nat, depth: int)
    requires start <= i && i + n + 1 < |s| && s[i] == QUOTE && s[i + 1 + n] == QUOTE
    requires Passes(s, start, i + 1, i + 1 + n, Scan(depth, true, false), Scan(depth, true, false))
    ensures Passes(s, start, i, i + n + 2, Scan(depth, false, false), Scan(depth, false, false))
  {}

  lemma {:induction false} BracedScan(s: Text, start: nat, i: nat, n: nat, depth: int)
    requires start <= i && i + n + 1 < |s| && s[i] == BRACE_OPEN && s[i + 1 + n] == BRACE_CLOSE && depth >= 1
    requires Passes(s, start, i + 1, i + 1 + n, Scan(depth + 1, false, false), Scan(depth + 1, false, false))
    ensures Passes(s, start, i, i + n + 2, Scan(depth, false, false), Scan(depth, false, false))
  {}

  lemma {:induction false} PartsScan(s: Text, start: nat, i: nat, parts: seq<Part>, depth: int)
    requires start <= i && (forall q | q in parts :: Legal(q)) && Stands(s, i, PrintAll(parts)) && depth >= 1
    ensures Passes(s, start, i, i + |PrintAll(parts)|, Scan(depth, false, false), Scan(depth, false, false))
    decreases parts, 0
  {
    if parts != [] {
      StandsParts(s, i, Print(parts[0]), PrintAll(parts[1..]));
      PartScan(s, start, i, parts[0], depth);
      PartsScan(s, start, i + |Print(parts[0])|, parts[1..], depth);
      hide After, Print, Legal;
    }
  }

  // ---- Objects ----

  lemma {:induction false} FirstCloseIs(s: Text, start: nat, i: nat, end: nat)
    requires start <= i <= end < |s| && ClosedAt(s, start, end) && forall k | i <= k < end :: !ClosedAt(s, start, k)
    ensures NextClose(s, start, i) == end
    decreases end - i
  {
    hide After;
    if i < end {
      FirstCloseIs(s, start, i + 1, end);
    }
  }

  /** The scan from an object's opening brace closes at its own closing brace, whatever its strings hold. */
  lemma {:induction false} ObjectCloses(s: Text, start: nat, parts: seq<Part>)
    requires (forall q | q in parts :: Legal(q)) && Stands(s, start, Print(Braced(parts)))
    ensures start < |s| && s[start] == BRACE_OPEN && NextClose(s, start, start) == start + |Print(Braced(parts))| - 1
  {
    var body := PrintAll(parts);
    Framed(s, start, BRACE_OPEN, body, BRACE_CLOSE);
    PartsScan(s, start, start + 1, parts, 1);
    hide Print, PrintAll, NextClose;
    assert After(s, start, start + 1) == Scan(1, false, false);
    FirstCloseIs(s, start, start, start + 1 + |body|);
  }

  predicate NoBrace(s: Text) { BRACE_OPEN !in s }

  lemma {:induction false} SkipsProse(s: Text, i: nat, k: nat)
    requires i <= k <= |s| && (forall j | i <= j < k :: s[j] != BRACE_OPEN) && (k < |s| ==> s[k] == BRACE_OPEN)
    ensures IndexBrace(s, i) == k
  {}

  /**
   A reply of prose around one object: the object is the only candidate, and if it carries the
   nonce it is what is found.
   */
  lemma {:induction false} OneObjectIsFound<V>(json: Json<V>, pre: Text, parts: seq<Part>, post: Text, nonce: Text)
    requires nonce != [] && NoBrace(pre) && NoBrace(post) && forall q | q in parts :: Legal(q)
    ensures var text := Print(Braced(parts));
            FindUnbounded(json, pre + text + post, nonce) ==
              if json.carries(text) then Object(Found(text, 1, 1)) else NoObject(Found([], 0, 1))
  {
    var text := Print(Braced(parts));
    var s, start, end := pre + text + post, |pre|, |pre| + |text| - 1;
    OneSpan(pre, parts, post);
    hide Print, Spans, Settle, Candidate;
    CandidateText(s, start, end);
    assert s[start..end + 1] == text;
    SettleCons(json, s, Span(start, end), [], NOTHING);
    SettleNothing(json, s, NOTHING.(candidates := 1));
    SettleNothing(json, s, Found(text, 1, 1));
    assert [Span(start, end)] + [] == Spans(s, 0);
  }

  lemma {:induction false} OneSpan(pre: Text, parts: seq<Part>, post: Text)
    requires NoBrace(pre) && NoBrace(post) && forall q | q in parts :: Legal(q)
    ensures var text := Print(Braced(parts));
            Spans(pre + text + post, 0) == [Span(|pre|, |pre| + |text| - 1)]
  {
    var text := Print(Braced(parts));
    var s, start, end := pre + text + post, |pre|, |pre| + |text| - 1;
    hide *;
    ProseAround(pre, text, post);
    ObjectCloses(s, start, parts);
    SkipsProse(s, 0, start);
    OneScan(s, 0, 0);
    SkipsProse(s, end + 1, |s|);
    OneScan(s, end + 1, 0);
    assert [Span(start, end)] + [] == [Span(start, end)];
  }

  lemma ProseAround(pre: Text, text: Text, post: Text)
    requires NoBrace(pre) && NoBrace(post)
    ensures var s := pre + text + post;
            && Stands(s, |pre|, text)
            && (forall j | 0 <= j < |pre| :: s[j] != BRACE_OPEN)
            && (forall j | |pre| + |text| <= j < |s| :: s[j] != BRACE_OPEN)
  {
    var s := pre + text + post;
    assert forall j | |pre| + |text| <= j < |s| :: s[j] == post[j - |pre| - |text|];
  }
}
