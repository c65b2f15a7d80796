/**
 The bytes behind the sizes of eval/judge/decisionreview.go: what encoding/json writes for a
 question, and the protocol limits stated over those bytes.
 */
module DecisionJson {
  import opened Bytes
  import opened DataFence
  import opened DecisionBudget
  import Utf8Cut

  const QUOTE: Byte := 0x22
  const BACKSLASH: Byte := 0x5C

  function HexDigit(n: nat): Byte
    requires n < 16
  {
    if n < 10 then 0x30 + n else 0x57 + n
  }

  /** \u00xx */
  function UnicodeEscape(b: Byte): Text { Ascii("\\u00") + [HexDigit(b / 16), HexDigit(b % 16)] }

  /** One ASCII byte inside a JSON string, HTML characters escaped as encoding/json does by default. */
  function WriteAscii(b: Byte): (t: Text)
    requires b < 0x80
  {
    if b == QUOTE || b == BACKSLASH then [BACKSLASH, b]
    else if b == 0x08 then Ascii("\\b")
    else if b == 0x0C then Ascii("\\f")
    else if b == 0x0A then Ascii("\\n")
    else if b == 0x0D then Ascii("\\r")
    else if b == 0x09 then Ascii("\\t")
    else if b < 0x20 || b == LT || b == 0x3E || b == 0x26 then UnicodeEscape(b)
    else [b]
  }

  /** The inside of a JSON string; an invalid byte becomes U+FFFD, and the line separators are escaped. */
  function WriteString(s: Text): (t: Text) {
    if s == [] then []
    else if s[0] < 0x80 then WriteAscii(s[0]) + WriteString(s[1..])
    else if Utf8Cut.RuneAt(s, 0) then
      var w := Utf8Cut.Size(s[0]);
      (if s[..w] == [0xE2, 0x80, 0xA8] then Ascii("\\u2028")
       else if s[..w] == [0xE2, 0x80, 0xA9] then Ascii("\\u2029")
       else s[..w])
      + WriteString(s[w..])
    else Ascii("\\ufffd") + WriteString(s[1..])
  }

  lemma AsciiLength(b: Byte)
    requires b < 0x80
    ensures |WriteAscii(b)| == AsciiEscape(b)
  {}

  lemma {:induction false} EscapedIsWritten(s: Text)
    ensures |WriteString(s)| == Escaped(s)
    decreases |s|
  {
    if s != [] {
      hide WriteAscii, AsciiEscape;
      if s[0] < 0x80 {
        AsciiLength(s[0]);
        EscapedIsWritten(s[1..]);
      } else if Utf8Cut.RuneAt(s, 0) {
        EscapedIsWritten(s[Utf8Cut.Size(s[0])..]);
      } else {
        EscapedIsWritten(s[1..]);
      }
    }
  }

  /** A literal with its quotes written as '. */
  function Literal(s: string): (t: Text)
    ensures |t| == |s|
  {
    seq(|s|, i requires 0 <= i < |s| => if s[i] == '\'' then QUOTE else (s[i] as int) % 128)
  }

  /** json.Marshal of a question: its members in order, an empty note left out, the choices by name. */
  function Marshal(q: Instructions): (t: Text) {
    Literal("{'type':'choice','instructions':{'criteria':'") + WriteString(q.criteria)
    + Literal("','boundary':'") + WriteString(q.boundary)
    + (if q.note == [] then [] else Literal("','note':'") + WriteString(q.note))
    + Literal("','question':'") + WriteString(q.question)
    + Literal("'},'criteria':{'fail':'") + WriteString(FAIL_CHOICE)
    + Literal("','pass':'") + WriteString(PASS_CHOICE) + Literal("'}}")
  }

  lemma SizeIsMarshalled(q: Instructions)
    ensures |Marshal(q)| == QuestionSize(q)
  {
    hide WriteString, Escaped, Literal;
    EscapedIsWritten(q.criteria);
    EscapedIsWritten(q.boundary);
    EscapedIsWritten(q.note);
    EscapedIsWritten(q.question);
    EscapedIsWritten(FAIL_CHOICE);
    EscapedIsWritten(PASS_CHOICE);
  }

  // ---- The limits ----

  function AllMarshalled(qs: seq<Instructions>): nat {
    if qs == [] then 0 else AllMarshalled(qs[..|qs| - 1]) + |Marshal(qs[|qs| - 1])|
  }

  lemma {:induction false} AllMeasured(qs: seq<Instructions>)
    ensures AllQuestions(qs) == AllMarshalled(qs)
  {
    if qs != [] {
      hide Marshal, QuestionSize;
      AllMeasured(qs[..|qs| - 1]);
      SizeIsMarshalled(qs[|qs| - 1]);
    }
  }

  lemma {:induction false} LongestMeasured(qs: seq<Instructions>, n: int)
    ensures LongestQuestion(qs) <= n <==> 0 <= n && AllAtMost(qs, n)
  {
    hide *;
    if qs == [] {
      NoQuestion(n);
    } else {
      LongestMeasured(qs[..|qs| - 1], n);
      LongestOfOneMore(qs);
      AtMostOneMore(qs, n);
    }
  }

  predicate AllAtMost(qs: seq<Instructions>, n: int) { forall q | q in qs :: |Marshal(q)| <= n }

  lemma NoQuestion(n: int)
    ensures LongestQuestion([]) == 0 && AllAtMost([], n)
  {}

  lemma {:induction false} AtMostOneMore(qs: seq<Instructions>, n: int)
    requires qs != []
    ensures AllAtMost(qs, n) <==> AllAtMost(qs[..|qs| - 1], n) && QuestionSize(qs[|qs| - 1]) <= n
  {
    hide Marshal, QuestionSize, Escaped, WriteString;
    var front, last := qs[..|qs| - 1], qs[|qs| - 1];
    SizeIsMarshalled(last);
    assert forall q :: q in qs <==> q in front || q == last;
  }

  lemma {:induction false} LongestOfOneMore(qs: seq<Instructions>)
    requires qs != []
    ensures var rest, last := LongestQuestion(qs[..|qs| - 1]), QuestionSize(qs[|qs| - 1]);
            LongestQuestion(qs) == if last > rest then last else rest
  {
    hide QuestionSize;
  }

  /**
   A request passes exactly when its state with any one question takes at most 31,488 bytes and with
   all of them at most 63,488: the protocol's 32,000 and 64,000 less a reserve of 512.
   */
  lemma LimitsMeaning(req: Request)
    ensures WithinLimits(req) <==>
              && |req.state| <= 31_488 && (forall q | q in req.questions :: |req.state| + |Marshal(q)| <= 31_488)
              && |req.state| + AllMarshalled(req.questions) <= 63_488
  {
    hide Marshal, LongestQuestion, AllQuestions, AllMarshalled;
    AllMeasured(req.questions);
    LongestMeasured(req.questions, 31_488 - |req.state|);
  }

  /** The room is what the limit, its reserve and the 160 bytes kept for the note leave of a request without a head. */
  lemma RoomMeaning(criteria: Text, stat: Text)
    ensures var empty := BuildDecisionRequest(criteria, WorkspaceDiff(stat, [], 0, false), ZERO_FENCE);
            |empty.questions| == 1
            && Room(criteria, stat) == 31_328 - |empty.state| - |Marshal(empty.questions[0])|
  {
    var empty := BuildDecisionRequest(criteria, WorkspaceDiff(stat, [], 0, false), ZERO_FENCE);
    hide Marshal, QuestionSize;
    OneQuestion(empty.questions[0]);
    SizeIsMarshalled(empty.questions[0]);
  }

  /** A cut head is the longest that fits: one byte more and its neutralised form is over the room. */
  lemma LongestFitMeaning(head: Text, n: nat, room: int)
    requires n <= |head|
    ensures LongestFit(head, n, room) <==>
              |Neutral(head[..n], 0)| <= room && (n < |head| ==> |Neutral(head[..n + 1], 0)| > room)
  {
    hide Neutral;
    assert LongestFit(head, n, room) ==> Fits(head, n, room) && (n < |head| ==> !Fits(head, n + 1, room));
    forall m: nat | m <= n
      ensures |Neutral(head[..m], 0)| <= |Neutral(head[..n], 0)|
    {
      NeutralIsPrefixMonotone(head, m, n);
    }
    forall m: nat | n < m <= |head|
      ensures |Neutral(head[..n + 1], 0)| <= |Neutral(head[..m], 0)|
    {
      NeutralIsPrefixMonotone(head, n + 1, m);
    }
  }

  /** On a valid head, what the cut keeps is whole characters, and as many as n bytes hold. */
  lemma CutIsWhole(diff: WorkspaceDiff, n: nat)
    requires Utf8Cut.Valid(diff.head) && n < |diff.head|
    ensures var kept := CutAt(diff, n).head;
            && kept <= diff.head[..n] && Utf8Cut.Valid(kept) && n - |kept| <= 3 && CutAt(diff, n).truncated
            && forall k | |kept| < k <= n :: !Utf8Cut.Valid(diff.head[..k])
  {
    Utf8Cut.CuttersAgree(diff.head, n);
  }

  /** The model is shown the summary, or that there is none, before the diff. */
  lemma SummaryShows(stat: Text)
    ensures var shown := if stat == [] then Ascii("(no changes)") else stat;
            OccursAt(Summary(stat), shown, |"Summary (git diff --stat):\n"|)
  {
    var shown := if stat == [] then Ascii("(no changes)") else stat;
    var head, tail := Ascii("Summary (git diff --stat):\n"), Ascii("\n\nDiff:\n");
    assert Summary(stat) == head + shown + tail;
    assert (head + shown + tail)[|head|..|head| + |shown|] == shown;
  }
}
