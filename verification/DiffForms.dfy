/**
 The other forms of a diff that the parser of eval/golden/diff.go reads, and what it refuses: short
 and annotated hunk headers, stripped blank lines, paths.
 */
module DiffForms {
  import opened DiffParser
  import opened DiffPrinter
  import opened Numerals

  // ---- Hunk headers ----

  /** A range; a count of 1 may be left out. */
  function RangeText(start: nat, count: nat, short: bool): string {
    if short && count == 1 then Decimal(start) else Decimal(start) + "," + Decimal(count)
  }

  lemma ShortRange(a: string, tail: string)
    requires a != "" && AllDigits(a) && tail != "" && tail[0] == ' '
    ensures ParseRange(a + tail) == Ok(Range(a, "", tail))
  {
    hide Digits, AllDigits;
    DigitsOf(a, tail);
    Parts(a, tail);
  }

  lemma RangeIsRead(start: nat, count: nat, short: bool, tail: string)
    requires LegalRange(start, count) && tail != "" && tail[0] == ' '
    ensures var r := ParseRange(RangeText(start, count, short) + tail);
            && r.Ok? && r.value.rest == tail && HunkRange(r.value.start, r.value.count) == Ok((start, count))
  {
    hide ParseRange, Decimal, AllDigits, Number;
    HunkRangeRoundTrip(start, count);
    DecimalRoundTrip(start);
    if short && count == 1 {
      ShortRange(Decimal(start), tail);
    } else {
      RangeRoundTrip(Decimal(start), Decimal(count), tail);
      assert Decimal(start) + "," + Decimal(count) + tail == RangeText(start, count, short) + tail;
    }
  }

  /** Any such header is read, with or without its counts, whatever follows it on the line. */
  lemma HeaderForms(h: Hunk, shortOld: bool, shortNew: bool, heading: string)
    requires LegalRange(h.oldStart, h.oldCount) && LegalRange(h.newStart, h.newCount)
    ensures var text := "@@ -" + RangeText(h.oldStart, h.oldCount, shortOld) + " +"
                + RangeText(h.newStart, h.newCount, shortNew) + " @@";
            ParseHeader(text + heading) == Ok(Hunk(h.oldStart, h.oldCount, h.newStart, h.newCount, [], text))
  {
    var a, b := RangeText(h.oldStart, h.oldCount, shortOld), RangeText(h.newStart, h.newCount, shortNew);
    var cur := b + (" @@" + heading);
    hide *;
    RangeIsRead(h.oldStart, h.oldCount, shortOld, " +" + cur);
    RangeIsRead(h.newStart, h.newCount, shortNew, " @@" + heading);
    Regrouped(a, b, heading);
    HeaderOfParts("@@ -" + a + " +" + b + " @@", heading, a + (" +" + cur), cur);
  }

  lemma Regrouped(a: string, b: string, heading: string)
    ensures "@@ -" + a + " +" + b + " @@" + heading == "@@ -" + (a + (" +" + (b + (" @@" + heading))))
  {
    assert " +" + b + (" @@" + heading) == " +" + (b + (" @@" + heading));
  }

  lemma HeaderOfParts(text: string, heading: string, was: string, cur: string)
    requires text + heading == "@@ -" + was
    requires ParseRange(was).Ok? && ParseRange(was).value.rest == " +" + cur
    requires ParseRange(cur).Ok? && ParseRange(cur).value.rest == " @@" + heading
    requires var o, n := ParseRange(was).value, ParseRange(cur).value;
             HunkRange(o.start, o.count).Ok? && HunkRange(n.start, n.count).Ok?
    ensures var o, n := ParseRange(was).value, ParseRange(cur).value;
            var r, s := HunkRange(o.start, o.count).value, HunkRange(n.start, n.count).value;
            ParseHeader(text + heading) == Ok(Hunk(r.0, r.1, s.0, s.1, [], text))
  {
    hide ParseRange, HunkRange;
    var line := text + heading;
    assert line[4..] == was && (" +" + cur)[2..] == cur;
    assert line[..|text|] == text && |line| - |" @@" + heading| + 3 == |text|;
  }

  // ---- Bodies ----

  /** How a line may stand in a diff: as it is, a blank context line stripped, a marker with any words. */
  predicate StandsFor(printed: string, line: string) {
    if IsMarker(line) then IsMarker(printed) else printed == line || (printed == "" && line == " ")
  }

  predicate AllStandFor(printed: seq<string>, lines: seq<string>) {
    |printed| == |lines| && forall i | 0 <= i < |lines| :: StandsFor(printed[i], lines[i])
  }

  lemma {:induction false} FormStep(printed: string, line: string, tail: seq<string>, oldLeft: nat, newLeft: nat,
      got: seq<string>)
    requires LegalBody(Markable(got), [line]) && StandsFor(printed, line)
    ensures ParseBody([printed] + tail, oldLeft + OldLines([line]), newLeft + NewLines([line]), got)
            == ParseBody(tail, oldLeft, newLeft, got + [line])
  {
    hide ParseBody, OldLines, NewLines, LegalBody, Markable;
    OneLineCounts(line);
    OneLineIsLegal(got, line);
    if IsMarker(line) {
      MarkerForm(printed, tail, oldLeft, newLeft, got);
    } else {
      LineForm(printed, line, tail, oldLeft + OldLines([line]), newLeft + NewLines([line]), got);
    }
  }

  lemma {:induction false} MarkerForm(printed: string, tail: seq<string>, oldLeft: nat, newLeft: nat, got: seq<string>)
    requires IsMarker(printed) && got != [] && !IsMarker(got[|got| - 1])
    ensures ParseBody([printed] + tail, oldLeft, newLeft, got) == ParseBody(tail, oldLeft, newLeft, got + ["\\"])
  {
    var rest := [printed] + tail;
    BodyAt(rest, 0, oldLeft, newLeft, got);
    hide *;
    assert rest[0..] == rest && rest[0] == printed && rest[1..] == tail;
  }

  lemma {:induction false} LineForm(printed: string, line: string, tail: seq<string>, oldLeft: nat, newLeft: nat,
      got: seq<string>)
    requires line != "" && (line[0] == ' ' || line[0] == '-' || line[0] == '+')
    requires printed == line || (printed == "" && line == " ")
    requires (line[0] != '+' ==> oldLeft > 0) && (line[0] != '-' ==> newLeft > 0)
    ensures ParseBody([printed] + tail, oldLeft, newLeft, got)
            == ParseBody(tail, if line[0] == '+' then oldLeft else oldLeft - 1,
                         if line[0] == '-' then newLeft else newLeft - 1, got + [line])
  {
    var rest := [printed] + tail;
    BodyAt(rest, 0, oldLeft, newLeft, got);
    assert !IsMarker(printed);
    hide *;
    assert rest[0..] == rest && rest[0] == printed && rest[1..] == tail;
  }

  lemma {:induction false} OneLineCounts(line: string)
    ensures OldLines([line]) == if line != "" && (line[0] == ' ' || line[0] == '-') then 1 else 0
    ensures NewLines([line]) == if line != "" && (line[0] == ' ' || line[0] == '+') then 1 else 0
  {
    assert OldLines([line][1..]) == NewLines([line][1..]) == 0;
  }

  lemma {:induction false} OneLineIsLegal(got: seq<string>, line: string)
    requires LegalBody(Markable(got), [line])
    ensures if IsMarker(line) then line == "\\" && got != [] && !IsMarker(got[|got| - 1])
            else line != "" && (line[0] == ' ' || line[0] == '-' || line[0] == '+')
  {}

  lemma EndForm(printed: seq<string>, post: seq<string>, got: seq<string>)
    requires AllStandFor(printed, []) && (post == [] || !IsMarker(post[0]))
    ensures ParseBody(printed + post, OldLines([]), NewLines([]), got) == Ok((got + [], post))
  {
    assert printed + post == PrintLines([]) + post;
    BodyEnd(post, got);
    hide ParseBody;
  }

  lemma FirstForm(printed: seq<string>, lines: seq<string>, post: seq<string>)
    requires AllStandFor(printed, lines) && lines != []
    ensures printed != [] && StandsFor(printed[0], lines[0]) && AllStandFor(printed[1..], lines[1..])
    ensures printed + post == [printed[0]] + (printed[1..] + post)
  {
    hide StandsFor;
  }

  /** A body is read back in any of its forms, up to the lines its header counts and their markers. */
  lemma {:induction false} BodyForms(printed: seq<string>, lines: seq<string>, post: seq<string>, got: seq<string>)
    requires AllStandFor(printed, lines) && LegalBody(Markable(got), lines) && (post == [] || !IsMarker(post[0]))
    ensures ParseBody(printed + post, OldLines(lines), NewLines(lines), got) == Ok((got + lines, post))
    decreases |lines|
  {
    hide *;
    if lines == [] {
      EndForm(printed, post, got);
    } else {
      FirstForm(printed, lines, post);
      var tail := printed[1..] + post;
      FirstIsLegal(lines, got);
      FirstIsCounted(lines);
      FormStep(printed[0], lines[0], tail, OldLines(lines[1..]), NewLines(lines[1..]), got);
      BodyForms(printed[1..], lines[1..], post, got + [lines[0]]);
      assert got + [lines[0]] + lines[1..] == got + lines;
    }
  }

  // ---- Paths ----

  /** p[i..j] is a whole component of p. */
  predicate IsComponent(p: string, i: int, j: int) {
    && 0 <= i <= j <= |p| && '/' !in p[i..j]
    && (i == 0 || p[i - 1] == '/') && (j == |p| || p[j] == '/')
  }

  function Lower(c: char): char { if 'A' <= c <= 'Z' then (c as int + 32) as char else c }

  /** A component that is part of a clean path: not empty, not a dot or two, and not git's directory in any case. */
  predicate PlainComponent(part: string) {
    && part != "" && part != "." && part != ".."
    && !(|part| == 4 && part[0] == '.' && Lower(part[1]) == 'g' && Lower(part[2]) == 'i' && Lower(part[3]) == 't')
  }

  lemma {:induction false} ComponentsAreSplit(p: string, i: int, j: int)
    requires IsComponent(p, i, j)
    ensures p[i..j] in Split(p, '/')
    decreases |p|
  {
    hide Split, IndexOf;
    if i == 0 {
      FirstComponent(p, j);
    } else {
      var k := IndexOf(p, '/');
      SlashBefore(p, i, k);
      UnshiftComponent(p, k, i, j);
      ComponentsAreSplit(p[k + 1..], i - k - 1, j - k - 1);
      hide IsComponent;
      RestIsSplit(p, p[i..j]);
    }
  }

  lemma RestIsSplit(p: string, part: string)
    requires IndexOf(p, '/') < |p| && part in Split(p[IndexOf(p, '/') + 1..], '/')
    ensures part in Split(p, '/')
  {
    SplitCons(p);
    hide Split, IndexOf;
  }

  lemma SlashBefore(p: string, i: int, k: nat)
    requires 0 < i <= |p| && p[i - 1] == '/' && k <= |p| && forall m :: 0 <= m < k ==> p[m] != '/'
    ensures k < i
  {}

  lemma UnshiftComponent(p: string, k: nat, i: int, j: int)
    requires k < i && IsComponent(p, i, j)
    ensures IsComponent(p[k + 1..], i - k - 1, j - k - 1) && p[k + 1..][i - k - 1..j - k - 1] == p[i..j]
  {
    var rest := p[k + 1..];
    assert rest[i - k - 1..j - k - 1] == p[i..j];
    assert i - k - 1 > 0 ==> rest[i - k - 2] == p[i - 1];
    assert j < |p| ==> rest[j - k - 1] == p[j];
  }

  lemma FirstComponent(p: string, j: int)
    requires IsComponent(p, 0, j)
    ensures p[0..j] in Split(p, '/')
  {
    var k := IndexOf(p, '/');
    assert forall m | 0 <= m < j :: p[m] == p[0..j][m];
    assert k == j;
    assert p[..j] == p[0..j];
    assert k == |p| ==> p[..j] == p;
  }

  lemma {:induction false} SplitIsComponents(p: string, part: string) returns (i: int, j: int)
    requires part in Split(p, '/')
    ensures IsComponent(p, i, j) && p[i..j] == part
    decreases |p|
  {
    var k := IndexOf(p, '/');
    SplitCons(p);
    hide Split, IndexOf;
    if k == |p| || part == p[..k] {
      i, j := 0, k;
      assert p[0..k] == p[..k] && p[..|p|] == p && '/' !in p[..k];
    } else {
      i, j := SplitIsComponents(p[k + 1..], part);
      ShiftComponent(p, k, i, j);
      i, j := i + k + 1, j + k + 1;
    }
  }

  lemma SplitCons(p: string)
    ensures var k := IndexOf(p, '/');
            Split(p, '/') == if k == |p| then [p] else [p[..k]] + Split(p[k + 1..], '/')
  {
    hide IndexOf;
  }

  lemma ShiftComponent(p: string, k: nat, i: int, j: int)
    requires k < |p| && p[k] == '/' && IsComponent(p[k + 1..], i, j)
    ensures IsComponent(p, i + k + 1, j + k + 1) && p[i + k + 1..j + k + 1] == p[k + 1..][i..j]
  {
    var rest := p[k + 1..];
    assert rest[i..j] == p[i + k + 1..j + k + 1];
    assert i > 0 ==> rest[i - 1] == p[i + k];
    assert j < |rest| ==> rest[j] == p[j + k + 1];
  }

  /**
   A path is accepted exactly when it has no backslash and each of its components is plain: so it is
   relative, clean, stays inside the workspace and avoids git's own directory.
   */
  lemma {:induction false} PathMeaning(p: string)
    ensures LegalPath(p) <==> '\\' !in p && forall i, j | IsComponent(p, i, j) :: PlainComponent(p[i..j])
  {
    hide Split;
    if '\\' !in p && forall i, j | IsComponent(p, i, j) :: PlainComponent(p[i..j]) {
      forall part | part in Split(p, '/') ensures part != "" && part != "." && part != ".." && !FoldsToGit(part) {
        var i, j := SplitIsComponents(p, part);
      }
    }
    if LegalPath(p) {
      forall i, j | IsComponent(p, i, j) ensures PlainComponent(p[i..j]) {
        ComponentsAreSplit(p, i, j);
      }
    }
  }

  /** An accepted side names its prefix and a legal path, up to a tab; only /dev/null is the absent side. */
  lemma SideMeaning(field: string, prefix: string)
    requires |prefix| == 2
    ensures var name := field[..IndexOf(field, '\t')];
            var r := DiffPath(field, prefix);
            && (r == Ok("") <==> name == "/dev/null")
            && (r.Ok? && r.value != "" <==>
                  name != "/dev/null" && !("\"" <= name) && prefix <= name && LegalPath(name[2..]))
            && (r.Ok? && r.value != "" ==> name == prefix + r.value)
  {
    EmptyIsIllegal();
    hide LegalPath;
  }

  lemma EmptyIsIllegal()
    ensures !LegalPath("")
  {
    assert "" in Split("", '/');
  }

  // ---- Lines around sections ----

  /** Between a git header and its file lines, index and mode lines are passed over. */
  lemma ExtendedIsSkipped(word: string, more: string, rest: seq<string>, got: seq<FileDiff>)
    requires word in {"index ", "new file mode ", "deleted file mode ", "old mode ", "new mode "}
    ensures SplitDiff([word + more] + rest, true, got) == SplitDiff(rest, true, got)
  {
    var line := word + more;
    assert word <= line && ([line] + rest)[0] == line && ([line] + rest)[1..] == rest;
    assert line[0] == word[0] && line[1] == word[1];
    NoOtherHeader(line);
    hide UnsupportedHeader, ParseSection;
  }

  lemma NoOtherHeader(line: string)
    requires |line| > 1 && ((line[0] == 'i' && line[1] == 'n') || (line[0] == 'n' && line[1] == 'e')
             || (line[0] == 'd' && line[1] == 'e') || (line[0] == 'o' && line[1] == 'l'))
    ensures !UnsupportedHeader(line) && !("diff --git " <= line)
  {
    DifferentStart(line, "similarity index ");
    DifferentSecond(line, "dissimilarity index ");
    DifferentStart(line, "rename from ");
    DifferentStart(line, "rename to ");
    DifferentStart(line, "copy from ");
    DifferentStart(line, "copy to ");
    DifferentStart(line, "Binary files ");
    DifferentStart(line, "GIT binary patch");
    DifferentSecond(line, "diff --git ");
  }

  /** Blank lines between sections are passed over. */
  lemma BlankIsSkipped(rest: seq<string>, got: seq<FileDiff>)
    ensures SplitDiff([""] + rest, false, got) == SplitDiff(rest, false, got)
  {
    assert ([""] + rest)[0] == "" && ([""] + rest)[1..] == rest;
    hide ParseSection;
  }

  /** A rename, a copy or a binary change is refused, as is a git header without file lines. */
  lemma UnsupportedIsRefused(word: string, more: string, rest: seq<string>, got: seq<FileDiff>)
    requires word in {"similarity index ", "dissimilarity index ", "rename from ", "rename to ", "copy from ",
                      "copy to ", "Binary files ", "GIT binary patch"}
    ensures SplitDiff([word + more] + rest, true, got).Err? && SplitDiff([], true, got).Err?
  {
    var line := word + more;
    assert word <= line && ([line] + rest)[0] == line;
  }
}
