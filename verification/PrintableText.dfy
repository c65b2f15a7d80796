/**
 Models printableText and verdictReason of eval/judge/diffreview.go over valid text: a string
 is a sequence of Unicode scalar values, measured by its UTF-8 length. Cutting at a byte count
 and dropping a partial rune keeps the longest prefix that fits, as TextEncoding proves of the
 encoded bytes.
 */
module PrintableText {
  const MAX_REASON_BYTES := 2048

  const ELLIPSIS := "..."

  function Width(c: char): (n: nat)
    ensures 1 <= n <= 4
  {
    if c as int < 0x80 then 1 else if c as int < 0x800 then 2 else if c as int < 0x1_0000 then 3 else 4
  }

  function ByteLen(s: string): (n: nat) {
    if s == "" then 0 else ByteLen(s[..|s| - 1]) + Width(s[|s| - 1])
  }

  /** unicode.IsControl: the category Cc. */
  predicate IsControl(c: char) { c as int < 0x20 || 0x7F <= c as int <= 0x9F }

  /** unicode.IsSpace, which strings.Fields splits around. */
  predicate IsSpace(c: char) {
    var n := c as int;
    || 0x09 <= n <= 0x0D || n == 0x20 || n == 0x85 || n == 0xA0 || n == 0x1680 || 0x2000 <= n <= 0x200A
    || n == 0x2028 || n == 0x2029 || n == 0x202F || n == 0x205F || n == 0x3000
  }

  function Visible(s: string): (r: string)
    ensures |r| == |s| && forall i | 0 <= i < |s| :: r[i] == if IsControl(s[i]) then ' ' else s[i]
  {
    seq(|s|, i requires 0 <= i < |s| => if IsControl(s[i]) then ' ' else s[i])
  }

  /** The length of the leading run of spaces, or of other characters. */
  function Run(s: string, spaces: bool): (n: nat)
    ensures n <= |s| && (forall i | 0 <= i < n :: IsSpace(s[i]) == spaces) && (n < |s| ==> IsSpace(s[n]) != spaces)
  {
    if s == "" || IsSpace(s[0]) != spaces then 0 else 1 + Run(s[1..], spaces)
  }

  /** strings.Fields. */
  function Fields(s: string): (words: seq<string>)
    decreases |s|
  {
    var rest := s[Run(s, true)..];
    var n := Run(rest, false);
    if n == 0 then [] else [rest[..n]] + Fields(rest[n..])
  }

  /** strings.Join with a space. */
  function Join(words: seq<string>): (s: string) {
    if words == [] then "" else if |words| == 1 then words[0] else words[0] + " " + Join(words[1..])
  }

  /** The longest prefix of at most limit bytes. */
  function Fit(s: string, limit: nat): (p: string)
    ensures p <= s
  {
    if ByteLen(s) <= limit then s else Fit(s[..|s| - 1], limit)
  }

  function Printable(s: string, limit: nat): (r: string) {
    var t := Join(Fields(Visible(s)));
    if ByteLen(t) > limit then Fit(t, limit) + ELLIPSIS else t
  }

  function VerdictReason(s: string): (r: string) { Printable(s, MAX_REASON_BYTES) }

  // ---- Clean text ----

  /** No control characters, and only single spaces, each between other characters. */
  predicate Clean(s: string) {
    && (forall i | 0 <= i < |s| :: !IsControl(s[i]))
    && (forall i | 0 <= i < |s| && IsSpace(s[i]) :: s[i] == ' ' && 0 < i < |s| - 1)
    && (forall i | 0 <= i < |s| - 1 && IsSpace(s[i]) :: !IsSpace(s[i + 1]))
  }

  predicate Word(w: string) { w != "" && forall i | 0 <= i < |w| :: !IsSpace(w[i]) && !IsControl(w[i]) }

  predicate Words(words: seq<string>) { forall w | w in words :: Word(w) }

  lemma {:induction false} FieldsAreWords(s: string)
    requires forall i | 0 <= i < |s| :: !IsControl(s[i])
    ensures Words(Fields(s))
    decreases |s|
  {
    hide IsSpace, IsControl, Run, Fields, Word;
    var rest := s[Run(s, true)..];
    var n := Run(rest, false);
    NextField(s);
    if n > 0 {
      FirstFieldIsWord(s);
      FieldsAreWords(rest[n..]);
    }
  }

  lemma NextField(s: string)
    ensures var rest := s[Run(s, true)..];
            var n := Run(rest, false);
            Fields(s) == if n == 0 then [] else [rest[..n]] + Fields(rest[n..])
  {
    hide Run;
  }

  lemma FirstFieldIsWord(s: string)
    requires forall i | 0 <= i < |s| :: !IsControl(s[i])
    ensures var rest := s[Run(s, true)..];
            var n := Run(rest, false);
            n > 0 ==> Word(rest[..n]) && forall i | 0 <= i < |rest[n..]| :: !IsControl(rest[n..][i])
  {
    hide IsSpace, IsControl, Run;
    var rest := s[Run(s, true)..];
    assert forall i | 0 <= i < |rest| :: rest[i] == s[Run(s, true) + i];
    var n := Run(rest, false);
    var word := rest[..n];
    assert forall i | 0 <= i < n :: word[i] == rest[i];
  }

  lemma {:induction false} JoinIsClean(words: seq<string>)
    requires Words(words)
    ensures Clean(Join(words)) && (words != [] ==> Join(words) != "" && !IsSpace(Join(words)[0]))
    decreases |words|
  {
    hide IsControl;
    if |words| == 1 {
      assert Word(words[0]);
    } else if |words| > 1 {
      assert Word(words[0]) && words[1] in words;
      assert forall w | w in words[1..] :: w in words;
      JoinIsClean(words[1..]);
      CleanPair(words[0], Join(words[1..]));
    }
  }

  lemma CleanPair(w: string, t: string)
    requires Word(w) && Clean(t) && t != "" && !IsSpace(t[0])
    ensures Clean(w + " " + t) && !IsSpace((w + " " + t)[0])
  {
    var s := w + " " + t;
    assert !IsControl(' ') && IsSpace(' ');
    hide IsControl;
    hide IsSpace;
    forall i | 0 <= i < |s|
      ensures !IsControl(s[i]) && (IsSpace(s[i]) ==> s[i] == ' ' && 0 < i < |s| - 1 && !IsSpace(s[i + 1]))
    {
      if i > |w| {
        assert s[i] == t[i - |w| - 1];
        assert i < |s| - 1 ==> s[i + 1] == t[i - |w| - 1 + 1];
      }
    }
  }

  lemma RunIs(s: string, spaces: bool, n: nat)
    requires n <= |s| && (forall i | 0 <= i < n :: IsSpace(s[i]) == spaces) && (n < |s| ==> IsSpace(s[n]) != spaces)
    ensures Run(s, spaces) == n
  {
    hide IsSpace;
  }

  /** Splitting clean text at its spaces and joining it again changes nothing. */
  lemma {:induction false} CleanIsFixed(s: string)
    requires Clean(s)
    ensures Join(Fields(s)) == s && (s != "" ==> Fields(s) != [])
    decreases |s|
  {
    hide *;
    if s == "" {
      NoFields();
    } else {
      FirstWord(s);
      var n := Run(s, false);
      if n == |s| {
        WholeWord(s);
      } else {
        var rest := s[n + 1..];
        CleanIsFixed(rest);
        JoinCons(s[..n], Fields(rest));
        assert s == s[..n] + " " + rest;
      }
    }
  }

  lemma NoFields()
    ensures Fields("") == [] && Join([]) == ""
  {}

  lemma JoinCons(w: string, words: seq<string>)
    requires words != []
    ensures Join([w] + words) == w + " " + Join(words)
  {
    assert ([w] + words)[1..] == words;
  }

  /** Clean text is one word, or a word, a space and clean text again. */
  lemma FirstWord(s: string)
    requires Clean(s) && s != ""
    ensures var n := Run(s, false);
            && Run(s, true) == 0 && n > 0
            && (n < |s| ==>
                  n + 1 < |s| && s[n] == ' ' && Clean(s[n + 1..]) && Fields(s) == [s[..n]] + Fields(s[n + 1..]))
  {
    hide IsControl, IsSpace, Run, Fields;
    RunIs(s, true, 0);
    var n := Run(s, false);
    NextField(s);
    assert s[0..] == s;
    if n < |s| {
      CleanTail(s, n);
      SpaceBeforeWord(s, n);
      hide Clean;
      FieldsAfterSpace(s[n..]);
    }
  }

  lemma SpaceBeforeWord(s: string, n: nat)
    requires Clean(s) && n + 1 < |s| && IsSpace(s[n])
    ensures |s[n..]| > 1 && IsSpace(s[n..][0]) && !IsSpace(s[n..][1]) && s[n..][1..] == s[n + 1..]
  {
    hide IsControl, IsSpace;
  }

  lemma WholeWord(s: string)
    requires s != "" && Run(s, true) == 0 && Run(s, false) == |s|
    ensures Fields(s) == [s] && Join(Fields(s)) == s
  {
    assert s[0..] == s && s[..|s|] == s && s[|s|..] == "";
    assert Run("", true) == 0 && ""[0..] == "" && Fields("") == [];
  }

  lemma CleanTail(s: string, n: nat)
    requires Clean(s) && 0 < n < |s| && IsSpace(s[n])
    ensures n + 1 < |s| && s[n] == ' ' && Clean(s[n + 1..])
  {
    hide IsControl;
    var t := s[n + 1..];
    assert forall i | 0 <= i < |t| :: t[i] == s[n + 1 + i];
  }

  /** A single leading space is skipped. */
  lemma FieldsAfterSpace(s: string)
    requires |s| > 1 && IsSpace(s[0]) && !IsSpace(s[1])
    ensures Fields(s) == Fields(s[1..])
  {
    hide IsSpace;
    RunIs(s, true, 1);
    RunIs(s[1..], true, 0);
    assert s[1..][0..] == s[1..];
  }

  lemma VisibleIsFixed(s: string)
    requires Clean(s)
    ensures Visible(s) == s
  {}

  lemma VisibleHasNoControl(s: string)
    ensures forall i | 0 <= i < |s| :: !IsControl(Visible(s)[i])
  {
    assert !IsControl(' ');
  }

  // ---- Cuts ----

  lemma {:induction false} ByteLenConcat(a: string, b: string)
    ensures ByteLen(a + b) == ByteLen(a) + ByteLen(b)
    decreases |b|
  {
    if b == "" {
      assert a + b == a;
    } else {
      assert (a + b)[..|a + b| - 1] == a + b[..|b| - 1];
      ByteLenConcat(a, b[..|b| - 1]);
    }
  }

  lemma EllipsisLength(s: string)
    ensures ByteLen(s + ELLIPSIS) == ByteLen(s) + 3
  {
    ByteLenConcat(s, ELLIPSIS);
    assert ELLIPSIS[..2] == ".." && ".."[..1] == "." && "."[..0] == "";
  }

  /** A cut that was needed leaves at most three bytes unused. */
  lemma {:induction false} FitIsTight(s: string, limit: nat)
    ensures ByteLen(Fit(s, limit)) <= limit
    ensures ByteLen(s) > limit ==> limit < ByteLen(Fit(s, limit)) + 4
  {
    if ByteLen(s) > limit {
      FitIsTight(s[..|s| - 1], limit);
    }
  }

  /** The longest fitting prefix is the one that fits while one more character would not. */
  lemma {:induction false} FitIs(s: string, n: nat, limit: nat)
    requires n <= |s| && ByteLen(s[..n]) <= limit && (n < |s| ==> ByteLen(s[..n + 1]) > limit)
    ensures Fit(s, limit) == s[..n]
    decreases |s|
  {
    if n == |s| {
      assert s[..n] == s;
    } else {
      var front := s[..|s| - 1];
      assert s[..n + 1] + s[n + 1..] == s;
      ByteLenConcat(s[..n + 1], s[n + 1..]);
      assert front[..n] == s[..n];
      if n < |front| {
        assert front[..n + 1] == s[..n + 1];
      }
      FitIs(front, n, limit);
    }
  }

  /** Cutting clean text and marking the cut leaves clean text. */
  lemma CutIsClean(p: string, t: string)
    requires Clean(t) && p <= t && p != ""
    ensures Clean(p + ELLIPSIS)
  {
    var s := p + ELLIPSIS;
    assert !IsControl('.') && !IsSpace('.');
    hide IsControl;
    hide IsSpace;
    forall i | 0 <= i < |s|
      ensures !IsControl(s[i]) && (IsSpace(s[i]) ==> s[i] == ' ' && 0 < i < |s| - 1 && !IsSpace(s[i + 1]))
    {
      if i < |p| {
        assert s[i] == t[i];
        assert i + 1 < |p| ==> s[i + 1] == t[i + 1];
      }
    }
  }

  lemma ReasonIsClean(raw: string)
    ensures Clean(VerdictReason(raw))
  {
    hide Clean;
    var v := Visible(raw);
    VisibleHasNoControl(raw);
    FieldsAreWords(v);
    JoinIsClean(Fields(v));
    var t := Join(Fields(v));
    if ByteLen(t) > MAX_REASON_BYTES {
      FitIsTight(t, MAX_REASON_BYTES);
      assert Fit(t, MAX_REASON_BYTES) != "";
      CutIsClean(Fit(t, MAX_REASON_BYTES), t);
    }
  }

  lemma CleanReason(s: string)
    requires Clean(s)
    ensures VerdictReason(s) == if ByteLen(s) > MAX_REASON_BYTES then Fit(s, MAX_REASON_BYTES) + ELLIPSIS else s
  {
    VisibleIsFixed(s);
    CleanIsFixed(s);
  }

  /**
   A reason made once is not changed by being made again, exactly when its length is not 2049 or
   2050 bytes: a cut reason of those lengths loses its own ellipsis to the next cut.
   */
  lemma ReasonRepeats(raw: string)
    ensures var s := VerdictReason(raw);
            VerdictReason(s) == s <==> ByteLen(s) <= MAX_REASON_BYTES || ByteLen(s) == MAX_REASON_BYTES + 3
  {
    var s := VerdictReason(raw);
    ReasonIsClean(raw);
    CleanReason(s);
    if ByteLen(s) > MAX_REASON_BYTES {
      hide Clean;
      var t := Join(Fields(Visible(raw)));
      var p := Fit(t, MAX_REASON_BYTES);
      FitIsTight(t, MAX_REASON_BYTES);
      EllipsisLength(p);
      assert s == p + ELLIPSIS;
      CutAgain(p);
    }
  }

  /** How far a second cut reaches into the ellipsis. */
  lemma {:induction false} CutAgain(p: string)
    requires MAX_REASON_BYTES - 3 < ByteLen(p) <= MAX_REASON_BYTES
    ensures |Fit(p + ELLIPSIS, MAX_REASON_BYTES)| == |p| + MAX_REASON_BYTES - ByteLen(p)
    ensures ByteLen(p) == MAX_REASON_BYTES ==> Fit(p + ELLIPSIS, MAX_REASON_BYTES) == p
  {
    hide ByteLen, Fit;
    var s, k := p + ELLIPSIS, MAX_REASON_BYTES - ByteLen(p);
    var n := |p| + k;
    assert s[..n] == p + ELLIPSIS[..k] && s[..n + 1] == p + ELLIPSIS[..k + 1];
    ByteLenConcat(p, ELLIPSIS[..k]);
    ByteLenConcat(p, ELLIPSIS[..k + 1]);
    DotsLength(k);
    DotsLength(k + 1);
    FitIs(s, n, MAX_REASON_BYTES);
    assert k == 0 ==> s[..n] == p;
  }

  lemma DotsLength(k: nat)
    requires k <= 3
    ensures ByteLen(ELLIPSIS[..k]) == k
  {
    assert ELLIPSIS[..0] == "" && ELLIPSIS[..1] == "." && ELLIPSIS[..2] == ".." && ELLIPSIS[..3] == "...";
    assert "..."[..2] == ".." && ".."[..1] == "." && "."[..0] == "";
    assert ByteLen(".") == 1;
    assert ByteLen("..") == 2;
  }

  /** No reason holds a control character, or white space other than single spaces between other characters. */
  lemma ReasonIsPrintable(raw: string)
    ensures var s := VerdictReason(raw);
            && (forall i | 0 <= i < |s| :: s[i] as int >= 0x20 && !(0x7F <= s[i] as int <= 0xA0))
            && (forall i | 0 <= i < |s| :: s[i] as int !in {0x1680, 0x2028, 0x2029, 0x202F, 0x205F, 0x3000})
            && (forall i | 0 <= i < |s| :: !(0x2000 <= s[i] as int <= 0x200A))
            && (forall i | 0 <= i < |s| && s[i] == ' ' :: 0 < i < |s| - 1 && s[i + 1] != ' ')
  {
    ReasonIsClean(raw);
    hide VerdictReason;
  }

  /** Ordinary text is kept: words of visible ASCII between single spaces, of at most 2048 bytes. */
  lemma PlainReasonSurvives(s: string)
    requires forall i | 0 <= i < |s| :: 0x20 <= s[i] as int <= 0x7E
    requires forall i | 0 <= i < |s| && s[i] == ' ' :: 0 < i < |s| - 1 && s[i + 1] != ' '
    requires |s| <= 2048
    ensures VerdictReason(s) == s
  {
    AsciiByteLen(s);
    assert Clean(s);
    hide VerdictReason, Clean;
    CleanReason(s);
  }

  lemma {:induction false} AsciiByteLen(s: string)
    requires forall i | 0 <= i < |s| :: s[i] as int <= 0x7E
    ensures ByteLen(s) == |s|
  {
    if s != "" {
      AsciiByteLen(s[..|s| - 1]);
    }
  }

  function As(n: nat): (s: string)
    ensures |s| == n && forall i | 0 <= i < n :: s[i] == 'a'
  {
    seq(n, _ => 'a')
  }

  lemma {:induction false} AsLength(n: nat)
    ensures ByteLen(As(n)) == n
  {
    if n > 0 {
      assert As(n)[..n - 1] == As(n - 1);
      AsLength(n - 1);
    }
  }

  /** A concrete reason that does change: 2046 letters and one three-byte character. */
  lemma ReasonCanChange()
    ensures VerdictReason(VerdictReason(As(2046) + "\U{20AC}")) != VerdictReason(As(2046) + "\U{20AC}")
  {
    hide ByteLen, Fit, VerdictReason, Clean, As;
    var raw := As(2046) + "\U{20AC}";
    EuroLength();
    LongIsClean(2046);
    AsLength(2046);
    ByteLenConcat(As(2046), "\U{20AC}");
    CleanReason(raw);
    assert raw[..2046] == As(2046) && raw[..2047] == raw;
    FitIs(raw, 2046, MAX_REASON_BYTES);
    EllipsisLength(As(2046));
    ReasonRepeats(raw);
  }

  lemma {:induction false} EuroLength()
    ensures ByteLen("\U{20AC}") == 3
  {
    assert "\U{20AC}"[..0] == "";
  }

  lemma {:induction false} LongIsClean(n: nat)
    ensures Clean(As(n) + "\U{20AC}")
  {}
}
