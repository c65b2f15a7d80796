/**
 How the sides of an accepted diff end: a side lacks its final newline exactly when a marker of
 its hunks says so, the marker stands on the side's last line, and no line holds a newline.
 */
module DiffMarks {
  import opened DiffParser
  import opened DiffPrinter
  import opened DiffReconstruct
  import opened DiffPatch

  // ---- Markers ----

  /** Whether a line with this first byte is one of the side's. */
  predicate Belongs(c: char, isOld: bool) { c == ' ' || c == (if isOld then '-' else '+') }

  predicate MarksIn(hunks: seq<Hunk>, k: int, j: int, isOld: bool) {
    0 <= k < |hunks| && 0 <= j < |hunks[k].lines| && MarksSide(hunks[k].lines, j, isOld)
  }

  ghost predicate Marked(hunks: seq<Hunk>, isOld: bool) { exists k, j :: MarksIn(hunks, k, j, isOld) }

  ghost predicate LinesMarked(lines: seq<string>, isOld: bool) {
    exists j :: 0 <= j < |lines| && MarksSide(lines, j, isOld)
  }

  /** A side that lacks its newline has a line to lack it. */
  predicate Sane(s: Side) { s.noEOL ==> s.lines != [] }

  lemma LineMarks(w: Work, line: string, last: char, isOld: bool)
    requires ApplyLine(w, line, last).Ok? && Sane(SideOf(w, isOld))
             && (Belongs(last, isOld) ==> SideOf(w, isOld).lines != [])
    ensures var r := SideOf(ApplyLine(w, line, last).value, isOld);
            && Sane(r) && (Belongs(FirstByte(line), isOld) ==> r.lines != [])
            && (r.noEOL <==> SideOf(w, isOld).noEOL || (IsMarker(line) && Belongs(last, isOld)))
  {}

  lemma {:induction false} LinesMark(w: Work, lines: seq<string>, last: char, isOld: bool)
    requires ApplyLines(w, lines, last).Ok? && Sane(SideOf(w, isOld))
             && (Belongs(last, isOld) ==> SideOf(w, isOld).lines != [])
    ensures var r := SideOf(ApplyLines(w, lines, last).value, isOld);
            && Sane(r)
            && (r.noEOL <==> SideOf(w, isOld).noEOL || LinesMarked(lines, isOld)
                             || (lines != [] && IsMarker(lines[0]) && Belongs(last, isOld)))
    decreases |lines|
  {
    if lines != [] {
      LineMarks(w, lines[0], last, isOld);
      LinesMark(ApplyLine(w, lines[0], last).value, lines[1..], FirstByte(lines[0]), isOld);
      hide ApplyLine;
      MarkedLater(lines, isOld);
    }
  }

  lemma MarkedLater(lines: seq<string>, isOld: bool)
    requires lines != []
    ensures var rest := lines[1..];
            LinesMarked(lines, isOld) <==>
            LinesMarked(rest, isOld) || (rest != [] && IsMarker(rest[0]) && Belongs(FirstByte(lines[0]), isOld))
  {
    var rest := lines[1..];
    if LinesMarked(lines, isOld) {
      var j :| 0 <= j < |lines| && MarksSide(lines, j, isOld);
      if j > 1 {
        assert MarksSide(rest, j - 1, isOld);
      }
    }
    if LinesMarked(rest, isOld) {
      var j :| 0 <= j < |rest| && MarksSide(rest, j, isOld);
      assert MarksSide(lines, j + 1, isOld);
    }
    if rest != [] && IsMarker(rest[0]) && Belongs(FirstByte(lines[0]), isOld) {
      assert MarksSide(lines, 1, isOld);
    }
  }

  lemma GapKeepsEnd(w: Work, h: Hunk, hasOld: bool, hasNew: bool, isOld: bool)
    requires ApplyGap(w, h, hasOld, hasNew).Ok? && Sane(SideOf(w, isOld))
    ensures var r := SideOf(ApplyGap(w, h, hasOld, hasNew).value, isOld); Sane(r) && r.noEOL == SideOf(w, isOld).noEOL
  {}

  lemma {:induction false} HunksMark(w: Work, hunks: seq<Hunk>, hasOld: bool, hasNew: bool, isOld: bool)
    requires ApplyHunks(w, hunks, hasOld, hasNew).Ok? && Sane(SideOf(w, isOld))
    ensures var r := SideOf(ApplyHunks(w, hunks, hasOld, hasNew).value, isOld);
            Sane(r) && (r.noEOL <==> SideOf(w, isOld).noEOL || Marked(hunks, isOld))
    decreases |hunks|
  {
    if hunks != [] {
      var padded := ApplyGap(w, hunks[0], hasOld, hasNew).value;
      GapKeepsEnd(w, hunks[0], hasOld, hasNew, isOld);
      LinesMark(padded, hunks[0].lines, '\0', isOld);
      HunksMark(ApplyLines(padded, hunks[0].lines, '\0').value, hunks[1..], hasOld, hasNew, isOld);
      hide ApplyLines, ApplyGap;
      MarkedFirst(hunks, isOld);
    }
  }

  lemma MarkedFirst(hunks: seq<Hunk>, isOld: bool)
    requires hunks != []
    ensures Marked(hunks, isOld) <==> LinesMarked(hunks[0].lines, isOld) || Marked(hunks[1..], isOld)
  {
    hide MarksSide;
    if Marked(hunks, isOld) {
      var k, j :| MarksIn(hunks, k, j, isOld);
      if k > 0 {
        assert MarksIn(hunks[1..], k - 1, j, isOld);
      }
    }
    if LinesMarked(hunks[0].lines, isOld) {
      var j :| 0 <= j < |hunks[0].lines| && MarksSide(hunks[0].lines, j, isOld);
      assert MarksIn(hunks, 0, j, isOld);
    }
    if Marked(hunks[1..], isOld) {
      var k, j :| MarksIn(hunks[1..], k, j, isOld);
      assert MarksIn(hunks, k + 1, j, isOld);
    }
  }

  // ---- Lines hold no newline ----

  predicate CleanHunk(h: Hunk) { OneLiners(h.lines) }

  predicate CleanSection(s: FileDiff) { forall h | h in s.hunks :: CleanHunk(h) }

  lemma {:induction false} SplitIsClean(s: string)
    ensures OneLiners(Split(s, '\n'))
    decreases |s|
  {
    if IndexOf(s, '\n') < |s| {
      SplitIsClean(s[IndexOf(s, '\n') + 1..]);
    }
  }

  lemma LinesAreClean(diff: string)
    ensures OneLiners(LinesOf(diff))
  {
    SplitIsClean(diff);
    hide Split;
  }

  lemma SuffixIsClean(lines: seq<string>, i: nat)
    requires OneLiners(lines) && i <= |lines|
    ensures OneLiners(lines[i..])
  {}

  lemma {:induction false} BodyIsClean(rest: seq<string>, oldLeft: nat, newLeft: nat, got: seq<string>)
    requires ParseBody(rest, oldLeft, newLeft, got).Ok? && OneLiners(rest) && OneLiners(got)
    ensures OneLiners(ParseBody(rest, oldLeft, newLeft, got).value.0)
    decreases |rest|
  {
    if rest != [] && (IsMarker(rest[0]) || oldLeft != 0 || newLeft != 0) {
      var line := if IsMarker(rest[0]) then "\\" else if rest[0] == "" then " " else rest[0];
      SuffixIsClean(rest, 1);
      assert OneLiners(got + [line]);
      BodyIsClean(rest[1..], if line[0] == ' ' || line[0] == '-' then oldLeft - 1 else oldLeft,
                  if line[0] == ' ' || line[0] == '+' then newLeft - 1 else newLeft, got + [line]);
    }
  }

  lemma {:induction false} HunksAreClean(rest: seq<string>, got: seq<Hunk>)
    requires ParseHunks(rest, got).Ok? && OneLiners(rest) && forall h | h in got :: CleanHunk(h)
    ensures forall h | h in ParseHunks(rest, got).value.0 :: CleanHunk(h)
    decreases |rest|
  {
    if rest != [] && "@@ " <= rest[0] {
      hide OneLiners, ParseHunk, CleanHunk;
      var h := ParseHunk(rest).value;
      HunkIsClean(rest);
      HunksAreClean(h.1, got + [h.0]);
    }
  }

  lemma HunkIsClean(rest: seq<string>)
    requires rest != [] && ParseHunk(rest).Ok? && OneLiners(rest)
    ensures CleanHunk(ParseHunk(rest).value.0) && OneLiners(ParseHunk(rest).value.1)
  {
    SuffixIsClean(rest, 1);
    SuffixIsClean(rest, |rest| - |ParseHunk(rest).value.1|);
    hide OneLiners, ParseBody, ParseHeader;
    var header := ParseHeader(rest[0]).value;
    NoLinesAreClean();
    BodyIsClean(rest[1..], header.oldCount, header.newCount, []);
  }

  lemma NoLinesAreClean()
    ensures OneLiners([])
  {}

  lemma SectionIsClean(rest: seq<string>)
    requires rest != [] && "--- " <= rest[0] && ParseSection(rest).Ok? && OneLiners(rest)
    ensures CleanSection(ParseSection(rest).value.0)
  {
    SuffixIsClean(rest, 2);
    hide ParseHunks, DiffPath, CleanHunk, OneLiners;
    HunksAreClean(rest[2..], []);
  }

  lemma {:induction false} SectionsAreClean(rest: seq<string>, inGitHeader: bool, got: seq<FileDiff>)
    requires SplitDiff(rest, inGitHeader, got).Ok? && OneLiners(rest) && forall s | s in got :: CleanSection(s)
    ensures forall s | s in SplitDiff(rest, inGitHeader, got).value :: CleanSection(s)
    decreases |rest|
  {
    hide CleanSection, ParseSection, ExtendedHeader, UnsupportedHeader, OneLiners;
    if rest != [] {
      if !("diff --git " <= rest[0]) && !(inGitHeader && ExtendedHeader(rest[0])) && "--- " <= rest[0] {
        var s := ParseSection(rest).value;
        SectionIsClean(rest);
        SuffixIsClean(rest, |rest| - |s.1|);
        SectionsAreClean(s.1, false, got + [s.0]);
      } else {
        SuffixIsClean(rest, 1);
        SectionsAreClean(rest[1..], inGitHeader || "diff --git " <= rest[0], got);
      }
    }
  }

  predicate CleanWork(w: Work) { OneLiners(w.was.lines) && OneLiners(w.now.lines) }

  lemma {:induction false} AppliedLinesAreClean(w: Work, lines: seq<string>, last: char)
    requires ApplyLines(w, lines, last).Ok? && CleanWork(w) && OneLiners(lines)
    ensures CleanWork(ApplyLines(w, lines, last).value)
    decreases |lines|
  {
    if lines != [] {
      AppliedLineIsClean(w, lines[0], last);
      SuffixIsClean(lines, 1);
      hide ApplyLine, CleanWork, OneLiners;
      AppliedLinesAreClean(ApplyLine(w, lines[0], last).value, lines[1..], FirstByte(lines[0]));
    }
  }

  lemma AppliedLineIsClean(w: Work, line: string, last: char)
    requires ApplyLine(w, line, last).Ok? && CleanWork(w) && OneLine(line)
    ensures CleanWork(ApplyLine(w, line, last).value)
  {}

  lemma GapIsClean(w: Work, h: Hunk, hasOld: bool, hasNew: bool)
    requires ApplyGap(w, h, hasOld, hasNew).Ok? && CleanWork(w)
    ensures CleanWork(ApplyGap(w, h, hasOld, hasNew).value)
  {
    GapAppends(w, h, hasOld, hasNew);
    hide ApplyGap;
  }

  lemma {:induction false} AppliedHunksAreClean(w: Work, hunks: seq<Hunk>, hasOld: bool, hasNew: bool)
    requires ApplyHunks(w, hunks, hasOld, hasNew).Ok? && CleanWork(w) && forall h | h in hunks :: CleanHunk(h)
    ensures CleanWork(ApplyHunks(w, hunks, hasOld, hasNew).value)
    decreases |hunks|
  {
    if hunks != [] {
      hide ApplyGap, ApplyLines, CleanWork, OneLiners;
      var padded := ApplyGap(w, hunks[0], hasOld, hasNew).value;
      assert hunks[0] in hunks;
      GapIsClean(w, hunks[0], hasOld, hasNew);
      AppliedLinesAreClean(padded, hunks[0].lines, '\0');
      AppliedHunksAreClean(ApplyLines(padded, hunks[0].lines, '\0').value, hunks[1..], hasOld, hasNew);
    }
  }

  // ---- Both together ----

  /** The side ends where its hunks' markers say, and without a newline exactly when there is one. */
  ghost predicate EndsAsMarked(s: Side, hunks: seq<Hunk>, isOld: bool) {
    && Sane(s) && (s.noEOL <==> Marked(hunks, isOld))
    && (forall k, j | MarksIn(hunks, k, j, isOld) ::
          |s.lines| == First(hunks[k], isOld) - 1 + |Kept(hunks[k].lines[..j], isOld)|)
  }

  lemma {:induction false} ReconstructionEndsAsMarked(s: FileDiff, left: int, isOld: bool)
    requires Reconstruct(s, left).Ok?
    ensures EndsAsMarked(SideOf(Reconstruct(s, left).value, isOld), s.hunks, isOld)
  {
    var w := Work(NO_LINES, NO_LINES, left);
    hide ApplyHunks, MarksSide, Kept, Marked;
    HunksMark(w, s.hunks, s.oldPath != "", s.newPath != "", isOld);
    forall k, j | MarksIn(s.hunks, k, j, isOld)
      ensures |SideOf(Reconstruct(s, left).value, isOld).lines| == First(s.hunks[k], isOld) - 1
                  + |Kept(s.hunks[k].lines[..j], isOld)|
    {
      MarksFallOnLastLine(w, s.hunks, s.oldPath != "", s.newPath != "", k, j, isOld);
    }
  }

  lemma {:induction false} ReconstructionIsClean(s: FileDiff, left: int)
    requires Reconstruct(s, left).Ok? && CleanSection(s)
    ensures CleanWork(Reconstruct(s, left).value)
  {
    hide ApplyHunks, CleanHunk;
    AppliedHunksAreClean(Work(NO_LINES, NO_LINES, left), s.hunks, s.oldPath != "", s.newPath != "");
  }

  /** The text and the mark leave only one side: nothing about its lines is left open. */
  lemma {:induction false} TextDeterminesSide(a: Side, b: Side)
    requires OneLiners(a.lines) && OneLiners(b.lines) && Sane(a) && Sane(b)
    requires TextOf(a) == TextOf(b) && a.noEOL == b.noEOL
    ensures a == b
  {
    hide Split, OneLiners, Terminated, TextOf;
    TextIs(a);
    TextIs(b);
    TerminatedRoundTrip(a.lines);
    TerminatedRoundTrip(b.lines);
    assert a.lines + [""] == b.lines + [""];
    assert a.lines == (a.lines + [""])[..|a.lines|] && b.lines == (b.lines + [""])[..|b.lines|];
  }

  lemma TextIs(s: Side)
    requires Sane(s)
    ensures Terminated(s.lines) == if s.noEOL then TextOf(s) + "\n" else TextOf(s)
  {
    TerminatedEnds(s.lines);
    hide Terminated;
  }

  lemma {:induction false} TerminatedEnds(lines: seq<string>)
    ensures var text := Terminated(lines); lines != [] ==> text != "" && text[|text| - 1] == '\n'
  {
    if |lines| > 1 {
      TerminatedEnds(lines[1..]);
    }
  }
}
