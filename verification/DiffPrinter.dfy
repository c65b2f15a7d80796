/**
 A printer of unified diffs, as git writes them, and the proof that the parser undoes it: the
 counts in a hunk's header, not the look of a line, decide where the hunk ends.
 */
module DiffPrinter {
  import opened DiffParser
  import opened Numerals

  // ---- Printing ----

  function Header(h: Hunk): string {
    "@@ -" + Decimal(h.oldStart) + "," + Decimal(h.oldCount) + " +" + Decimal(h.newStart) + "," + Decimal(h.newCount)
        + " @@"
  }

  function Printed(line: string): string {
    if IsMarker(line) then "\\ No newline at end of file" else line
  }

  function PrintLines(lines: seq<string>): (r: seq<string>) {
    if lines == [] then [] else [Printed(lines[0])] + PrintLines(lines[1..])
  }

  function PrintHunks(hunks: seq<Hunk>): (r: seq<string>) {
    if hunks == [] then [] else [Header(hunks[0])] + PrintLines(hunks[0].lines) + PrintHunks(hunks[1..])
  }

  function SideName(path: string, prefix: string): string {
    if path == "" then "/dev/null" else prefix + path
  }

  /** The extended header git writes for a file that is created or deleted. */
  function ModeLines(s: FileDiff): seq<string> {
    if s.oldPath == "" then ["new file mode 100644"] else if s.newPath == "" then ["deleted file mode 100644"] else []
  }

  function PrintSections(sections: seq<FileDiff>): (r: seq<string>) {
    if sections == [] then []
    else
      var s := sections[0];
      ["diff --git a/" + s.Path() + " b/" + s.Path()] + ModeLines(s)
      + ["--- " + SideName(s.oldPath, "a/"), "+++ " + SideName(s.newPath, "b/")] + PrintHunks(s.hunks)
      + PrintSections(sections[1..])
  }

  function Terminated(lines: seq<string>): (text: string) {
    if lines == [] then "" else lines[0] + "\n" + Terminated(lines[1..])
  }

  function Print(sections: seq<FileDiff>): (text: string) {
    Terminated(PrintSections(sections))
  }

  // ---- Well-formed sections ----

  function OldLines(lines: seq<string>): (n: nat) {
    if lines == [] then 0 else (if lines[0] != "" && lines[0][0] in {' ', '-'} then 1 else 0) + OldLines(lines[1..])
  }

  function NewLines(lines: seq<string>): (n: nat) {
    if lines == [] then 0 else (if lines[0] != "" && lines[0][0] in {' ', '+'} then 1 else 0) + NewLines(lines[1..])
  }

  /** Context, removed and added lines, each perhaps followed by one marker. */
  predicate LegalBody(markable: bool, lines: seq<string>)
    decreases |lines|
  {
    lines == [] ||
    if IsMarker(lines[0]) then markable && lines[0] == "\\" && LegalBody(false, lines[1..])
    else lines[0] != "" && lines[0][0] in {' ', '-', '+'} && '\n' !in lines[0] && LegalBody(true, lines[1..])
  }

  predicate LegalRange(start: nat, count: nat) {
    (start == 0 ==> count == 0) && start <= MAX_FIXTURE_BYTES && count <= MAX_FIXTURE_BYTES
  }

  predicate LegalHunk(h: Hunk) {
    && LegalRange(h.oldStart, h.oldCount) && LegalRange(h.newStart, h.newCount) && h.header == Header(h)
    && LegalBody(false, h.lines) && OldLines(h.lines) == h.oldCount && NewLines(h.lines) == h.newCount
  }

  predicate LegalSide(path: string) {
    path == "" || (LegalPath(path) && '\n' !in path && '\t' !in path)
  }

  predicate LegalSection(s: FileDiff) {
    && LegalSide(s.oldPath) && LegalSide(s.newPath)
    && (s.oldPath != "" || s.newPath != "") && (s.oldPath == "" || s.newPath == "" || s.oldPath == s.newPath)
    && s.hunks != [] && forall h | h in s.hunks :: LegalHunk(h)
  }

  // ---- Headers ----

  lemma {:induction false} DecimalRoundTrip(n: nat)
    ensures Decimal(n) != "" && AllDigits(Decimal(n))
    ensures Number(Decimal(n)) == n
  {
    var s := Decimal(n);
    if n < 10 {
      assert s[..|s| - 1] == "";
    } else {
      DecimalRoundTrip(n / 10);
      assert s[..|s| - 1] == Decimal(n / 10);
    }
  }

  lemma {:induction false} DigitsOf(s: string, tail: string)
    requires AllDigits(s) && (tail == "" || !IsDigit(tail[0]))
    ensures Digits(s + tail) == |s|
  {
    if s == "" {
      assert s + tail == tail;
    } else {
      assert (s + tail)[1..] == s[1..] + tail;
      DigitsOf(s[1..], tail);
    }
  }

  lemma RangeRoundTrip(a: string, b: string, tail: string)
    requires a != "" && AllDigits(a) && b != "" && AllDigits(b) && tail != "" && !IsDigit(tail[0])
    ensures ParseRange(a + "," + b + tail) == Ok(Range(a, b, tail))
  {
    hide Digits, AllDigits;
    var rest := "," + (b + tail);
    assert a + "," + b + tail == a + rest;
    DigitsOf(a, rest);
    DigitsOf(b, tail);
    Parts(a, rest);
    Parts(b, tail);
    RangeOfParts(a + rest, rest, b + tail);
  }

  lemma Parts(a: string, b: string)
    ensures (a + b)[..|a|] == a && (a + b)[|a|..] == b
  {}

  lemma RangeOfParts(s: string, rest: string, second: string)
    requires Digits(s) > 0 && s[Digits(s)..] == rest && rest == "," + second && Digits(second) > 0
    ensures ParseRange(s) == Ok(Range(s[..Digits(s)], second[..Digits(second)], second[Digits(second)..]))
  {
    hide Digits, AllDigits;
    assert rest[1..] == second;
  }

  lemma HunkRangeRoundTrip(start: nat, count: nat)
    requires LegalRange(start, count)
    ensures AllDigits(Decimal(start)) && Decimal(start) != "" && AllDigits(Decimal(count)) && Decimal(count) != ""
    ensures HunkRange(Decimal(start), Decimal(count)) == Ok((start, count))
  {
    DecimalRoundTrip(start);
    DecimalRoundTrip(count);
  }

  lemma HeaderParts(line: string, was: string, cur: string, o: Range, n: Range)
    requires line == "@@ -" + was && o.rest == " +" + cur && n.rest == " @@"
    requires ParseRange(was) == Ok(o) && ParseRange(cur) == Ok(n)
    requires HunkRange(o.start, o.count).Ok? && HunkRange(n.start, n.count).Ok?
    ensures var r, s := HunkRange(o.start, o.count).value, HunkRange(n.start, n.count).value;
            ParseHeader(line) == Ok(Hunk(r.0, r.1, s.0, s.1, [], line))
  {
    hide ParseRange;
    hide HunkRange;
    assert line[4..] == was;
    assert (" +" + cur)[2..] == cur;
    assert line[..|line|] == line;
  }

  lemma HeaderRoundTrip(h: Hunk)
    requires LegalHunk(h)
    ensures ParseHeader(Header(h)) == Ok(h.(lines := []))
  {
    hide ParseHeader;
    hide ParseRange;
    hide HunkRange;
    hide Decimal;
    var a, b, c, d := Decimal(h.oldStart), Decimal(h.oldCount), Decimal(h.newStart), Decimal(h.newCount);
    var cur := c + "," + d + " @@";
    var was := a + "," + b + (" +" + cur);
    assert Header(h) == "@@ -" + was;
    HunkRangeRoundTrip(h.oldStart, h.oldCount);
    HunkRangeRoundTrip(h.newStart, h.newCount);
    RangeRoundTrip(a, b, " +" + cur);
    RangeRoundTrip(c, d, " @@");
    HeaderParts(Header(h), was, cur, Range(a, b, " +" + cur), Range(c, d, " @@"));
  }

  // ---- Bodies and hunks ----

  predicate Markable(got: seq<string>) { got != [] && !IsMarker(got[|got| - 1]) }

  /** One legal line, printed, is read back as itself. */
  lemma BodyStep(line: string, tail: seq<string>, oldLeft: nat, newLeft: nat, got: seq<string>)
    requires LegalBody(Markable(got), [line])
    ensures ParseBody([Printed(line)] + tail, oldLeft + OldLines([line]), newLeft + NewLines([line]), got)
            == ParseBody(tail, oldLeft, newLeft, got + [line])
  {
    var rest := [Printed(line)] + tail;
    assert rest[0] == Printed(line) && rest[1..] == tail;
    assert OldLines([line][1..]) == NewLines([line][1..]) == 0;
  }

  lemma BodyEnd(post: seq<string>, got: seq<string>)
    requires post == [] || !IsMarker(post[0])
    ensures ParseBody(PrintLines([]) + post, OldLines([]), NewLines([]), got) == Ok((got + [], post))
  {
    assert PrintLines([]) + post == post;
    assert got + [] == got;
  }

  /** A body is read back whole, whatever its lines look like, and nothing after it is touched. */
  lemma {:induction false} BodyRoundTrip(lines: seq<string>, post: seq<string>, got: seq<string>)
    requires LegalBody(Markable(got), lines) && (post == [] || !IsMarker(post[0]))
    ensures ParseBody(PrintLines(lines) + post, OldLines(lines), NewLines(lines), got) == Ok((got + lines, post))
    decreases |lines|
  {
    hide *;
    if lines == [] {
      BodyEnd(post, got);
    } else {
      BodyCons(lines, post, got);
      BodyRoundTrip(lines[1..], post, got + [lines[0]]);
      assert got + [lines[0]] + lines[1..] == got + lines;
    }
  }

  lemma {:induction false} BodyCons(lines: seq<string>, post: seq<string>, got: seq<string>)
    requires lines != [] && LegalBody(Markable(got), lines)
    ensures LegalBody(Markable(got + [lines[0]]), lines[1..])
    ensures ParseBody(PrintLines(lines) + post, OldLines(lines), NewLines(lines), got)
            == ParseBody(PrintLines(lines[1..]) + post, OldLines(lines[1..]), NewLines(lines[1..]), got + [lines[0]])
  {
    hide *;
    FirstIsPrinted(lines, post);
    FirstIsLegal(lines, got);
    FirstIsCounted(lines);
    BodyStep(lines[0], PrintLines(lines[1..]) + post, OldLines(lines[1..]), NewLines(lines[1..]), got);
  }

  lemma FirstIsPrinted(lines: seq<string>, post: seq<string>)
    requires lines != []
    ensures PrintLines(lines) + post == [Printed(lines[0])] + (PrintLines(lines[1..]) + post)
  {
    hide Printed;
  }

  lemma FirstIsLegal(lines: seq<string>, got: seq<string>)
    requires lines != [] && LegalBody(Markable(got), lines)
    ensures LegalBody(Markable(got), [lines[0]]) && LegalBody(Markable(got + [lines[0]]), lines[1..])
  {
    assert [lines[0]][1..] == [];
  }

  lemma FirstIsCounted(lines: seq<string>)
    requires lines != []
    ensures OldLines(lines) == OldLines([lines[0]]) + OldLines(lines[1..])
    ensures NewLines(lines) == NewLines([lines[0]]) + NewLines(lines[1..])
  {
    assert [lines[0]][1..] == [];
  }

  predicate EndsHunks(post: seq<string>) {
    post == [] || (!IsMarker(post[0]) && !("@@ " <= post[0]))
  }

  lemma HunkRoundTrip(h: Hunk, post: seq<string>)
    requires LegalHunk(h) && (post == [] || !IsMarker(post[0]))
    ensures ParseHunk([Header(h)] + PrintLines(h.lines) + post) == Ok((h, post))
  {
    hide ParseHeader;
    hide ParseBody;
    hide Header;
    var rest := [Header(h)] + PrintLines(h.lines) + post;
    HeaderRoundTrip(h);
    assert rest[1..] == PrintLines(h.lines) + post;
    BodyRoundTrip(h.lines, post, []);
    assert [] + h.lines == h.lines;
  }

  lemma HeaderStart(h: Hunk)
    ensures "@@ " <= Header(h) && !IsMarker(Header(h))
  {
    hide Decimal;
    assert Header(h)[0] == '@' && Header(h)[1] == '@' && Header(h)[2] == ' ';
  }

  lemma FirstHunk(hunks: seq<Hunk>, post: seq<string>, got: seq<Hunk>)
    requires hunks != [] && LegalHunk(hunks[0]) && EndsHunks(post)
    ensures ParseHunks(PrintHunks(hunks) + post, got) == ParseHunks(PrintHunks(hunks[1..]) + post, got + [hunks[0]])
  {
    hide ParseHunk;
    hide LegalHunk;
    hide Header;
    hide IsMarker;
    var h, later := hunks[0], PrintHunks(hunks[1..]) + post;
    var rest := [Header(h)] + PrintLines(h.lines) + later;
    assert PrintHunks(hunks) + post == rest;
    assert rest[0] == Header(h);
    HeaderStart(h);
    if |hunks| > 1 {
      HeaderStart(hunks[1]);
      assert later[0] == Header(hunks[1]);
    } else {
      assert later == post;
    }
    HunkRoundTrip(h, later);
  }

  lemma NoHunksLeft(post: seq<string>, got: seq<Hunk>)
    requires EndsHunks(post)
    ensures ParseHunks(PrintHunks([]) + post, got) == Ok((got + [], post))
  {
    assert PrintHunks([]) + post == post;
    assert got + [] == got;
  }

  lemma {:induction false} HunksRoundTrip(hunks: seq<Hunk>, post: seq<string>, got: seq<Hunk>)
    requires (forall h | h in hunks :: LegalHunk(h)) && EndsHunks(post)
    ensures ParseHunks(PrintHunks(hunks) + post, got) == Ok((got + hunks, post))
    decreases |hunks|
  {
    hide *;
    if hunks == [] {
      NoHunksLeft(post, got);
    } else {
      FirstHunk(hunks, post, got);
      HunksRoundTrip(hunks[1..], post, got + [hunks[0]]);
      assert got + [hunks[0]] + hunks[1..] == got + hunks;
    }
  }

  // ---- Sections ----

  lemma {:induction false} NotThere(s: string, c: char)
    requires c !in s
    ensures IndexOf(s, c) == |s|
  {}

  lemma PathRoundTrip(path: string, prefix: string)
    requires LegalSide(path) && (prefix == "a/" || prefix == "b/")
    ensures DiffPath(SideName(path, prefix), prefix) == Ok(path)
  {
    var name := SideName(path, prefix);
    assert '\t' !in "/dev/null" && '\t' !in prefix;
    NotThere(name, '\t');
    assert name[..|name|] == name;
    if path != "" {
      assert name[0] == prefix[0] && name[|prefix|..] == path;
    }
  }

  lemma SectionRoundTrip(s: FileDiff, post: seq<string>)
    requires LegalSection(s) && EndsHunks(post)
    ensures var rest := ["--- " + SideName(s.oldPath, "a/"), "+++ " + SideName(s.newPath, "b/")] + PrintHunks(s.hunks)
                + post;
            "--- " <= rest[0] && ParseSection(rest) == Ok((s, post))
  {
    hide DiffPath;
    hide ParseHunks;
    hide SideName;
    hide LegalHunk;
    var minus, plus := "--- " + SideName(s.oldPath, "a/"), "+++ " + SideName(s.newPath, "b/");
    var body := PrintHunks(s.hunks) + post;
    assert [minus, plus] + PrintHunks(s.hunks) + post == [minus, plus] + body;
    Parts("--- ", SideName(s.oldPath, "a/"));
    Parts("+++ ", SideName(s.newPath, "b/"));
    PathRoundTrip(s.oldPath, "a/");
    PathRoundTrip(s.newPath, "b/");
    HunksRoundTrip(s.hunks, post, []);
    assert [] + s.hunks == s.hunks;
    hide PrintHunks;
    SectionOfParts(minus, plus, body, s, post);
  }

  lemma SectionOfParts(minus: string, plus: string, body: seq<string>, s: FileDiff, post: seq<string>)
    requires "--- " <= minus && "+++ " <= plus && s.hunks != [] && ParseHunks(body, []) == Ok((s.hunks, post))
    requires DiffPath(minus[4..], "a/") == Ok(s.oldPath) && DiffPath(plus[4..], "b/") == Ok(s.newPath)
    requires !(s.oldPath == "" && s.newPath == "") && (s.oldPath == "" || s.newPath == "" || s.oldPath == s.newPath)
    ensures ParseSection([minus, plus] + body) == Ok((s, post))
  {
    hide DiffPath, ParseHunks;
    assert ([minus, plus] + body)[2..] == body;
  }

  lemma DifferentStart(s: string, p: string)
    requires s != "" && p != "" && s[0] != p[0]
    ensures !(p <= s)
  {}

  lemma FileLineIsNoHeader(line: string)
    requires "--- " <= line
    ensures !("diff --git " <= line) && !UnsupportedHeader(line) && !ExtendedHeader(line)
  {
    assert line[0] == '-';
    DifferentStart(line, "index ");
    DifferentStart(line, "new file mode ");
    DifferentStart(line, "deleted file mode ");
    DifferentStart(line, "old mode ");
    DifferentStart(line, "new mode ");
  }

  lemma {:induction false} ModeIsExtended(mode: string)
    requires mode == "new file mode 100644" || mode == "deleted file mode 100644"
    ensures ExtendedHeader(mode)
  {}

  lemma {:induction false} DifferentSecond(s: string, p: string)
    requires |s| > 1 && |p| > 1 && s[1] != p[1]
    ensures !(p <= s)
  {}

  lemma {:induction false} ModeIsSupported(mode: string)
    requires |mode| > 1 && (mode[0] == 'n' || mode[0] == 'd') && mode[1] == 'e'
    ensures !UnsupportedHeader(mode) && !("diff --git " <= mode)
  {
    DifferentStart(mode, "similarity index ");
    DifferentSecond(mode, "dissimilarity index ");
    DifferentStart(mode, "rename from ");
    DifferentStart(mode, "rename to ");
    DifferentStart(mode, "copy from ");
    DifferentStart(mode, "copy to ");
    DifferentStart(mode, "Binary files ");
    DifferentStart(mode, "GIT binary patch");
    DifferentSecond(mode, "diff --git ");
  }

  lemma {:induction false} ModeLineIsExtended(mode: string)
    requires mode == "new file mode 100644" || mode == "deleted file mode 100644"
    ensures ExtendedHeader(mode) && !UnsupportedHeader(mode) && !("diff --git " <= mode)
  {
    hide ExtendedHeader, UnsupportedHeader;
    ModeIsExtended(mode);
    assert (mode[0] == 'n' || mode[0] == 'd') && mode[1] == 'e';
    ModeIsSupported(mode);
  }

  lemma GitHeader(s: FileDiff, tail: seq<string>, got: seq<FileDiff>)
    requires tail != [] && "--- " <= tail[0]
    ensures SplitDiff(["diff --git a/" + s.Path() + " b/" + s.Path()] + ModeLines(s) + tail, false, got)
                == SplitDiff(tail, true, got)
  {
    var rest := ["diff --git a/" + s.Path() + " b/" + s.Path()] + ModeLines(s) + tail;
    assert "diff --git " <= rest[0];
    assert rest[1..] == ModeLines(s) + tail;
    if ModeLines(s) != [] {
      var mode := ModeLines(s)[0];
      assert ModeLines(s) + tail == [mode] + tail;
      assert ([mode] + tail)[1..] == tail;
      ModeLineIsExtended(mode);
    } else {
      assert ModeLines(s) + tail == tail;
    }
  }

  /** The file lines and hunks of the first section, and everything after it. */
  function FromFileLines(sections: seq<FileDiff>): seq<string>
    requires sections != []
  {
    var s := sections[0];
    ["--- " + SideName(s.oldPath, "a/"), "+++ " + SideName(s.newPath, "b/")] + PrintHunks(s.hunks)
        + PrintSections(sections[1..])
  }

  lemma FileLinesOfFirst(sections: seq<FileDiff>)
    requires sections != [] && LegalSection(sections[0])
    ensures var file := FromFileLines(sections);
            && file != [] && "--- " <= file[0]
            && ParseSection(file) == Ok((sections[0], PrintSections(sections[1..])))
            && PrintSections(sections) == ["diff --git a/" + sections[0].Path() + " b/" + sections[0].Path()]
                   + ModeLines(sections[0]) + file
  {
    hide ParseSection;
    hide LegalSection;
    hide PrintHunks;
    hide SideName;
    hide ModeLines;
    var later := PrintSections(sections[1..]);
    assert EndsHunks(later);
    SectionRoundTrip(sections[0], later);
  }

  lemma FirstSection(sections: seq<FileDiff>, got: seq<FileDiff>)
    requires sections != [] && LegalSection(sections[0])
    ensures SplitDiff(PrintSections(sections), false, got)
                == SplitDiff(PrintSections(sections[1..]), false, got + [sections[0]])
  {
    hide ParseSection;
    hide LegalSection;
    hide FromFileLines;
    hide PrintSections;
    hide ModeLines;
    var file := FromFileLines(sections);
    FileLinesOfFirst(sections);
    GitHeader(sections[0], file, got);
    FileLineIsNoHeader(file[0]);
  }

  lemma NoSections(got: seq<FileDiff>)
    ensures SplitDiff(PrintSections([]), false, got) == Ok(got + [])
  {
    assert got + [] == got;
  }

  lemma {:induction false} SectionsRoundTrip(sections: seq<FileDiff>, got: seq<FileDiff>)
    requires forall s | s in sections :: LegalSection(s)
    ensures SplitDiff(PrintSections(sections), false, got) == Ok(got + sections)
    decreases |sections|
  {
    hide *;
    if sections == [] {
      NoSections(got);
    } else {
      var s := sections[0];
      FirstSection(sections, got);
      SectionsRoundTrip(sections[1..], got + [s]);
      assert got + [s] + sections[1..] == got + sections;
    }
  }

  // ---- Text ----

  predicate OneLine(s: string) { '\n' !in s }

  predicate OneLiners(lines: seq<string>) { forall l | l in lines :: OneLine(l) }

  lemma {:induction false} TerminatedRoundTrip(lines: seq<string>)
    requires OneLiners(lines)
    ensures Split(Terminated(lines), '\n') == lines + [""]
  {
    if lines != [] {
      hide *;
      OneLinersCons(lines);
      TerminatedCons(lines);
      TerminatedRoundTrip(lines[1..]);
      SplitFirst(lines[0], Terminated(lines[1..]));
      assert [lines[0]] + (lines[1..] + [""]) == lines + [""];
    }
  }

  lemma OneLinersCons(lines: seq<string>)
    requires OneLiners(lines) && lines != []
    ensures OneLine(lines[0]) && OneLiners(lines[1..])
  {}

  lemma TerminatedCons(lines: seq<string>)
    requires lines != []
    ensures Terminated(lines) == lines[0] + ("\n" + Terminated(lines[1..]))
  {}

  lemma SplitFirst(line: string, rest: string)
    requires OneLine(line)
    ensures Split(line + ("\n" + rest), '\n') == [line] + Split(rest, '\n')
  {
    FirstNewline(line, rest);
    hide IndexOf, OneLine;
    var text := line + ("\n" + rest);
    assert text[..|line|] == line && text[|line| + 1..] == rest;
  }

  lemma {:induction false} FirstNewline(line: string, rest: string)
    requires OneLine(line)
    ensures IndexOf(line + ("\n" + rest), '\n') == |line|
  {
    if line != "" {
      assert (line + ("\n" + rest))[1..] == line[1..] + ("\n" + rest);
      FirstNewline(line[1..], rest);
    } else {
      assert line + ("\n" + rest) == "\n" + rest;
    }
  }

  lemma DecimalIsOneLine(n: nat)
    ensures OneLine(Decimal(n))
  {
    DecimalRoundTrip(n);
  }

  lemma HeaderIsOneLine(h: Hunk)
    ensures OneLine(Header(h))
  {
    DecimalIsOneLine(h.oldStart);
    DecimalIsOneLine(h.oldCount);
    DecimalIsOneLine(h.newStart);
    DecimalIsOneLine(h.newCount);
  }

  lemma {:induction false} BodyIsOneLiners(markable: bool, lines: seq<string>)
    requires LegalBody(markable, lines)
    ensures OneLiners(PrintLines(lines))
    decreases |lines|
  {
    if lines != [] {
      BodyIsOneLiners(!IsMarker(lines[0]), lines[1..]);
      assert OneLine("\\ No newline at end of file");
    }
  }

  lemma {:induction false} HunksAreOneLiners(hunks: seq<Hunk>)
    requires forall h | h in hunks :: LegalHunk(h)
    ensures OneLiners(PrintHunks(hunks))
  {
    if hunks != [] {
      HeaderIsOneLine(hunks[0]);
      assert LegalHunk(hunks[0]);
      BodyIsOneLiners(false, hunks[0].lines);
      HunksAreOneLiners(hunks[1..]);
    }
  }

  lemma FileLinesAreOneLiners(s: FileDiff)
    requires LegalSection(s)
    ensures OneLine("diff --git a/" + s.Path() + " b/" + s.Path())
    ensures OneLine("--- " + SideName(s.oldPath, "a/")) && OneLine("+++ " + SideName(s.newPath, "b/"))
  {
    assert OneLine(s.Path()) && OneLine(s.oldPath) && OneLine(s.newPath);
  }

  lemma {:induction false} SectionsAreOneLiners(sections: seq<FileDiff>)
    requires forall s | s in sections :: LegalSection(s)
    ensures OneLiners(PrintSections(sections))
  {
    hide LegalHunk;
    hide SideName;
    hide PrintHunks;
    hide OneLine;
    if sections != [] {
      var s := sections[0];
      assert LegalSection(s);
      FileLinesAreOneLiners(s);
      ModeLinesAreOneLiners(s);
      HunksAreOneLiners(s.hunks);
      SectionsAreOneLiners(sections[1..]);
    }
  }

  lemma ModeLinesAreOneLiners(s: FileDiff)
    ensures OneLiners(ModeLines(s))
  {}

  /**
   Printing any well-formed sections and parsing the text gives the same sections, so a hunk
   line that looks like a file header or a hunk header is never misread.
   */
  lemma PrintThenParse(sections: seq<FileDiff>)
    requires forall s | s in sections :: LegalSection(s)
    ensures SplitDiff(LinesOf(Print(sections)), false, []) == Ok(sections)
  {
    var lines := PrintSections(sections);
    SectionsAreOneLiners(sections);
    TerminatedRoundTrip(lines);
    assert (lines + [""])[..|lines|] == lines;
    SectionsRoundTrip(sections, []);
    assert [] + sections == sections;
  }
}
