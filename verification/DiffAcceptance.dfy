/**
 Exactly when a section can be reconstructed and to what, said of its hunks' numbers and lines
 alone, and hence exactly which diffs are accepted.
 */
module DiffAcceptance {
  import opened DiffParser
  import opened DiffPrinter
  import opened DiffReconstruct
  import opened DiffPatch
  import opened DiffMarks

  // ---- The condition ----

  /** How many lines of the side come before the hunk, by its header; an empty range names the line it follows. */
  function Ahead(h: Hunk, isOld: bool): int {
    var start, count := if isOld then h.oldStart else h.newStart, if isOld then h.oldCount else h.newCount;
    if count == 0 then start else start - 1
  }

  /** How many lines of the side there are at the end of the hunks. */
  function End(hunks: seq<Hunk>, isOld: bool): int {
    if hunks == [] then 0 else Ahead(hunks[|hunks| - 1], isOld) + |Kept(hunks[|hunks| - 1].lines, isOld)|
  }

  /** The untouched lines between the hunks before k and hunk k. */
  function Gap(hunks: seq<Hunk>, k: nat, isOld: bool): int
    requires k < |hunks|
  {
    Ahead(hunks[k], isOld) - End(hunks[..k], isOld)
  }

  /** Each hunk follows the one before, and the same number of lines lies between them on both sides. */
  predicate LinesUp(hunks: seq<Hunk>) {
    forall k | 0 <= k < |hunks| :: 0 <= Gap(hunks, k, true) == Gap(hunks, k, false)
  }

  /** No hunk counts lines on a side that does not exist. */
  predicate TouchesPresent(hunks: seq<Hunk>, hasOld: bool, hasNew: bool) {
    forall k | 0 <= k < |hunks| :: (hunks[k].oldCount > 0 ==> hasOld) && (hunks[k].newCount > 0 ==> hasNew)
  }

  /** Every no-newline marker of the side stands after the side's last line. */
  ghost predicate MarksLast(hunks: seq<Hunk>, isOld: bool) {
    forall k, j | MarksIn(hunks, k, j, isOld) ::
      Ahead(hunks[k], isOld) + |Kept(hunks[k].lines[..j], isOld)| == End(hunks, isOld)
  }

  function Bytes(lines: seq<string>): nat { if lines == [] then 0 else Bytes(lines[1..]) + |lines[0]| + 1 }

  function HunkCost(h: Hunk): nat { Bytes(Kept(h.lines, true)) + Bytes(Kept(h.lines, false)) }

  /** What the hunks' lines and the untouched lines between them cost, on both sides. */
  function Cost(hunks: seq<Hunk>): int {
    if hunks == [] then 0
    else
      var n := |hunks| - 1;
      Cost(hunks[..n]) + 2 * Gap(hunks, n, true) + HunkCost(hunks[n])
  }

  ghost predicate Sound(s: FileDiff) {
    && LinesUp(s.hunks) && TouchesPresent(s.hunks, s.oldPath != "", s.newPath != "")
    && MarksLast(s.hunks, true) && MarksLast(s.hunks, false)
  }

  /** The side's lines: those the hunks show, each at its place, and blanks where they show nothing. */
  function Built(hunks: seq<Hunk>, isOld: bool): (lines: seq<string>) {
    if hunks == [] then []
    else
      var n := |hunks| - 1;
      var front, gap := Built(hunks[..n], isOld), Gap(hunks, n, isOld);
      front + Blank(if gap > 0 then gap else 0) + Kept(hunks[n].lines, isOld)
  }

  ghost function SideBuilt(hunks: seq<Hunk>, isOld: bool): Side { Side(Built(hunks, isOld), Marked(hunks, isOld)) }

  ghost function WorkBuilt(hunks: seq<Hunk>, left: int): Work {
    Work(SideBuilt(hunks, true), SideBuilt(hunks, false), left - Cost(hunks))
  }

  // ---- One hunk's lines ----

  lemma {:induction false} BytesAre(lines: seq<string>)
    ensures |Terminated(lines)| == Bytes(lines)
  {
    if lines != [] {
      BytesAre(lines[1..]);
    }
  }

  /** No line of the side comes after it has ended; last is the first byte of the line before. */
  predicate Quiet(lines: seq<string>, last: char, ended: bool, isOld: bool) {
    lines == [] ||
    (&& (Belongs(FirstByte(lines[0]), isOld) ==> !ended)
     && Quiet(lines[1..], FirstByte(lines[0]), ended || (IsMarker(lines[0]) && Belongs(last, isOld)), isOld))
  }

  function LineCost(lines: seq<string>): nat { Bytes(Kept(lines, true)) + Bytes(Kept(lines, false)) }

  lemma {:induction false} CostOfFirst(lines: seq<string>)
    requires lines != []
    ensures LineCost(lines) == LineCost([lines[0]]) + LineCost(lines[1..])
  {
    KeptCons(lines, true);
    KeptCons(lines, false);
    KeptOne(lines[0], true);
    KeptOne(lines[0], false);
    hide Kept;
    BytesOfFirst(Kept([lines[0]], true), Kept(lines[1..], true));
    BytesOfFirst(Kept([lines[0]], false), Kept(lines[1..], false));
  }

  lemma {:induction false} BytesOfFirst(a: seq<string>, b: seq<string>)
    ensures Bytes(a + b) == Bytes(a) + Bytes(b)
  {
    if a == [] {
      assert a + b == b;
    } else {
      assert (a + b)[1..] == a[1..] + b;
      BytesOfFirst(a[1..], b);
    }
  }

  lemma {:induction false} LineOkIff(w: Work, line: string, last: char)
    requires w.left >= 0
    ensures ApplyLine(w, line, last).Ok? <==>
              && (Belongs(FirstByte(line), true) ==> !w.was.noEOL)
              && (Belongs(FirstByte(line), false) ==> !w.now.noEOL)
              && LineCost([line]) <= w.left
    ensures ApplyLine(w, line, last).Ok? ==>
              var r := ApplyLine(w, line, last).value;
              && r.left == w.left - LineCost([line])
              && (r.was.noEOL <==> w.was.noEOL || (IsMarker(line) && Belongs(last, true)))
              && (r.now.noEOL <==> w.now.noEOL || (IsMarker(line) && Belongs(last, false)))
  {
    KeptOne(line, true);
    KeptOne(line, false);
    hide Kept;
    assert forall x: string :: [x][1..] == [];
    assert forall x: string :: Bytes([x]) == |x| + 1;
  }

  lemma {:induction false} LinesOkIff(w: Work, lines: seq<string>, last: char)
    requires w.left >= 0
    ensures ApplyLines(w, lines, last).Ok? <==>
              Quiet(lines, last, w.was.noEOL, true) && Quiet(lines, last, w.now.noEOL, false)
              && LineCost(lines) <= w.left
    ensures ApplyLines(w, lines, last).Ok? ==> ApplyLines(w, lines, last).value.left == w.left - LineCost(lines)
    decreases |lines|
  {
    if lines != [] {
      LineOkIff(w, lines[0], last);
      CostOfFirst(lines);
      hide ApplyLine, LineCost, Belongs;
      if ApplyLine(w, lines[0], last).Ok? {
        LinesOkIff(ApplyLine(w, lines[0], last).value, lines[1..], FirstByte(lines[0]));
      }
    }
  }

  // ---- What quiet means ----

  /** A marker at j for the side, when the line before the first has first byte last. */
  predicate MarksFrom(lines: seq<string>, last: char, j: int, isOld: bool) {
    0 <= j < |lines| && IsMarker(lines[j]) && Belongs(if j == 0 then last else FirstByte(lines[j - 1]), isOld)
  }

  lemma {:induction false} KeptFirst(lines: seq<string>, isOld: bool)
    requires lines != []
    ensures Kept(lines, isOld) == [] <==> !Belongs(FirstByte(lines[0]), isOld) && Kept(lines[1..], isOld) == []
  {}

  lemma {:induction false} QuietMeaning(lines: seq<string>, last: char, ended: bool, isOld: bool)
    ensures Quiet(lines, last, ended, isOld) <==>
              && (ended ==> Kept(lines, isOld) == [])
              && forall j | MarksFrom(lines, last, j, isOld) :: Kept(lines[j..], isOld) == []
    decreases |lines|
  {
    if lines != [] {
      var next := FirstByte(lines[0]);
      QuietMeaning(lines[1..], next, ended || (IsMarker(lines[0]) && Belongs(last, isOld)), isOld);
      KeptFirst(lines, isOld);
      assert lines[0..] == lines;
      hide Kept, Belongs;
      forall j | 0 < j < |lines|
        ensures MarksFrom(lines, last, j, isOld) <==> MarksFrom(lines[1..], next, j - 1, isOld)
        ensures lines[j..] == lines[1..][j - 1..]
      {}
      MarksShift(lines, last, isOld);
    }
  }

  lemma {:induction false} MarksShift(lines: seq<string>, last: char, isOld: bool)
    requires lines != []
    ensures var rest, next := lines[1..], FirstByte(lines[0]);
            (forall j | MarksFrom(rest, next, j, isOld) :: Kept(rest[j..], isOld) == []) <==>
            (forall j | MarksFrom(lines, last, j, isOld) && j > 0 :: Kept(lines[j..], isOld) == [])
  {
    hide Kept, Belongs;
    var rest, next := lines[1..], FirstByte(lines[0]);
    if forall j | MarksFrom(lines, last, j, isOld) && j > 0 :: Kept(lines[j..], isOld) == [] {
      forall j | MarksFrom(rest, next, j, isOld) ensures Kept(rest[j..], isOld) == [] {
        assert MarksFrom(lines, last, j + 1, isOld) && lines[j + 1..] == rest[j..];
      }
    }
    if forall j | MarksFrom(rest, next, j, isOld) :: Kept(rest[j..], isOld) == [] {
      forall j | MarksFrom(lines, last, j, isOld) && j > 0 ensures Kept(lines[j..], isOld) == [] {
        assert MarksFrom(rest, next, j - 1, isOld) && lines[j..] == rest[j - 1..];
      }
    }
  }

  lemma {:induction false} MarksFromStart(lines: seq<string>, j: int, isOld: bool)
    ensures MarksFrom(lines, '\0', j, isOld) <==> 0 <= j < |lines| && MarksSide(lines, j, isOld)
  {}

  // ---- One hunk ----

  lemma {:induction false} FirstIsAhead(h: Hunk, isOld: bool)
    ensures First(h, isOld) == Ahead(h, isOld) + 1 || (First(h, isOld) == 0 && Ahead(h, isOld) == -1)
  {}

  /** When a hunk can be placed after the lines of w, and its lines added. */
  predicate GapFits(w: Work, h: Hunk, hasOld: bool, hasNew: bool) {
    var gap := Ahead(h, true) - |w.was.lines|;
    && (h.oldCount > 0 ==> hasOld) && (h.newCount > 0 ==> hasNew)
    && 0 <= gap == Ahead(h, false) - |w.now.lines|
    && (gap > 0 ==> !w.was.noEOL && !w.now.noEOL)
    && 2 * gap <= w.left
  }

  lemma {:induction false} GapOkIff(w: Work, h: Hunk, hasOld: bool, hasNew: bool)
    requires w.left >= 0
    ensures ApplyGap(w, h, hasOld, hasNew).Ok? <==> GapFits(w, h, hasOld, hasNew)
    ensures ApplyGap(w, h, hasOld, hasNew).Ok? ==>
              var r, gap := ApplyGap(w, h, hasOld, hasNew).value, Ahead(h, true) - |w.was.lines|;
              && r.left == w.left - 2 * gap && r.was.noEOL == w.was.noEOL && r.now.noEOL == w.now.noEOL
              && r.was.lines == w.was.lines + Blank(gap) && r.now.lines == w.now.lines + Blank(gap)
  {
    hide Blank;
    if ApplyGap(w, h, hasOld, hasNew).Ok? {
      GapAppends(w, h, hasOld, hasNew);
    }
  }

  /** What one more hunk needs. */
  predicate HunkFits(w: Work, h: Hunk, hasOld: bool, hasNew: bool) {
    && GapFits(w, h, hasOld, hasNew)
    && Quiet(h.lines, '\0', w.was.noEOL, true) && Quiet(h.lines, '\0', w.now.noEOL, false)
    && 2 * (Ahead(h, true) - |w.was.lines|) + HunkCost(h) <= w.left
  }

  /** One more hunk, as the loop adds it. */
  function AddHunk(w: Work, h: Hunk, hasOld: bool, hasNew: bool): Result<Work> {
    var padded :- ApplyGap(w, h, hasOld, hasNew);
    ApplyLines(padded, h.lines, '\0')
  }

  lemma {:induction false} HunkOkIff(w: Work, h: Hunk, hasOld: bool, hasNew: bool)
    requires w.left >= 0
    ensures AddHunk(w, h, hasOld, hasNew).Ok? <==> HunkFits(w, h, hasOld, hasNew)
    ensures AddHunk(w, h, hasOld, hasNew).Ok? ==>
              var r, gap := AddHunk(w, h, hasOld, hasNew).value, Ahead(h, true) - |w.was.lines|;
              && gap >= 0 && r.left == w.left - 2 * gap - HunkCost(h)
              && r.was.lines == w.was.lines + Blank(gap) + Kept(h.lines, true)
              && r.now.lines == w.now.lines + Blank(gap) + Kept(h.lines, false)
  {
    hide ApplyGap, ApplyLines, Quiet, Kept, Bytes, Blank;
    GapOkIff(w, h, hasOld, hasNew);
    if ApplyGap(w, h, hasOld, hasNew).Ok? {
      var padded := ApplyGap(w, h, hasOld, hasNew).value;
      LinesOkIff(padded, h.lines, '\0');
      if ApplyLines(padded, h.lines, '\0').Ok? {
        LinesAppend(padded, h.lines, '\0');
      }
    }
  }

  lemma {:induction false} HunksSnoc(w: Work, hunks: seq<Hunk>, h: Hunk, hasOld: bool, hasNew: bool)
    ensures var front, all := ApplyHunks(w, hunks, hasOld, hasNew), ApplyHunks(w, hunks + [h], hasOld, hasNew);
            && (front.Err? ==> all.Err?)
            && (front.Ok? ==> all.Ok? == AddHunk(front.value, h, hasOld, hasNew).Ok?
                              && (all.Ok? ==> all == AddHunk(front.value, h, hasOld, hasNew)))
    decreases |hunks|
  {
    hide ApplyGap, ApplyLines;
    if hunks == [] {
      assert (hunks + [h])[0] == h && (hunks + [h])[1..] == [];
    } else {
      assert (hunks + [h])[0] == hunks[0] && (hunks + [h])[1..] == hunks[1..] + [h];
      var padded := ApplyGap(w, hunks[0], hasOld, hasNew);
      if padded.Ok? && ApplyLines(padded.value, hunks[0].lines, '\0').Ok? {
        HunksSnoc(ApplyLines(padded.value, hunks[0].lines, '\0').value, hunks[1..], h, hasOld, hasNew);
      }
    }
  }

  // ---- All hunks ----

  lemma {:induction false} GapOfFront(hunks: seq<Hunk>, n: nat, k: nat, isOld: bool)
    requires k < n <= |hunks|
    ensures Gap(hunks[..n], k, isOld) == Gap(hunks, k, isOld)
  {
    assert hunks[..n][..k] == hunks[..k];
  }

  lemma {:induction false} LinesUpSnoc(hunks: seq<Hunk>)
    requires hunks != []
    ensures var n := |hunks| - 1;
            LinesUp(hunks) <==> LinesUp(hunks[..n]) && 0 <= Gap(hunks, n, true) == Gap(hunks, n, false)
  {
    var n := |hunks| - 1;
    hide Gap;
    forall k | 0 <= k < n
        ensures Gap(hunks[..n], k, true) == Gap(hunks, k, true) && Gap(hunks[..n], k, false) == Gap(hunks, k, false) {
      GapOfFront(hunks, n, k, true);
      GapOfFront(hunks, n, k, false);
    }
  }

  lemma {:induction false} TouchesSnoc(hunks: seq<Hunk>, hasOld: bool, hasNew: bool)
    requires hunks != []
    ensures var n := |hunks| - 1;
            TouchesPresent(hunks, hasOld, hasNew) <==>
              TouchesPresent(hunks[..n], hasOld, hasNew)
              && (hunks[n].oldCount > 0 ==> hasOld) && (hunks[n].newCount > 0 ==> hasNew)
  {
    var n := |hunks| - 1;
    assert forall k | 0 <= k < n :: hunks[..n][k] == hunks[k];
  }

  lemma {:induction false} BuiltLength(hunks: seq<Hunk>, isOld: bool)
    requires LinesUp(hunks)
    ensures |Built(hunks, isOld)| == End(hunks, isOld) && Cost(hunks) >= 0
  {
    if hunks != [] {
      LinesUpSnoc(hunks);
      hide LinesUp, Kept, Blank;
      BuiltLength(hunks[..|hunks| - 1], isOld);
    }
  }

  /** A marker's place is at most the side's end so far, and ends only move on. */
  lemma {:induction false} MarkBeforeEnd(hunks: seq<Hunk>, k: int, j: int, isOld: bool)
    requires LinesUp(hunks) && 0 <= k < |hunks| && 0 <= j <= |hunks[k].lines|
    ensures Ahead(hunks[k], isOld) + |Kept(hunks[k].lines[..j], isOld)| <= End(hunks, isOld)
    decreases |hunks|
  {
    var n := |hunks| - 1;
    KeptSplit(hunks[k].lines, j, isOld);
    if k < n {
      LinesUpSnoc(hunks);
      hide LinesUp, Kept;
      MarkBeforeEnd(hunks[..n], k, j, isOld);
    }
  }

  lemma {:induction false} KeptSplit(lines: seq<string>, j: nat, isOld: bool)
    requires j <= |lines|
    ensures Kept(lines, isOld) == Kept(lines[..j], isOld) + Kept(lines[j..], isOld)
    decreases |lines|
  {
    if j > 0 {
      assert lines[..j][1..] == lines[1..][..j - 1] && lines[..j][0] == lines[0] && lines[j..] == lines[1..][j - 1..];
      KeptSplit(lines[1..], j - 1, isOld);
    } else {
      assert lines[0..] == lines && lines[..0] == [];
    }
  }

  /** One more hunk leaves every marker on the last line exactly when it adds nothing after one. */
  ghost predicate MarksStep(hunks: seq<Hunk>, isOld: bool)
    requires hunks != []
  {
    var n := |hunks| - 1;
    && (Marked(hunks[..n], isOld) ==> Gap(hunks, n, isOld) == 0 && Kept(hunks[n].lines, isOld) == [])
    && (forall j | 0 <= j < |hunks[n].lines| && MarksSide(hunks[n].lines, j, isOld) ::
          Kept(hunks[n].lines[j..], isOld) == [])
  }

  lemma {:induction false} MarksSnoc(hunks: seq<Hunk>, isOld: bool)
    requires hunks != [] && LinesUp(hunks)
    ensures MarksLast(hunks, isOld) <==> MarksLast(hunks[..|hunks| - 1], isOld) && MarksStep(hunks, isOld)
  {
    if MarksLast(hunks, isOld) {
      MarksSnocDown(hunks, isOld);
    }
    if MarksLast(hunks[..|hunks| - 1], isOld) && MarksStep(hunks, isOld) {
      MarksSnocUp(hunks, isOld);
    }
  }

  lemma {:induction false} MarksSnocDown(hunks: seq<Hunk>, isOld: bool)
    requires hunks != [] && LinesUp(hunks) && MarksLast(hunks, isOld)
    ensures MarksLast(hunks[..|hunks| - 1], isOld) && MarksStep(hunks, isOld)
  {
    var n := |hunks| - 1;
    var front := hunks[..n];
    LinesUpSnoc(hunks);
    hide LinesUp, Kept, MarksSide;
    forall k, j | MarksIn(front, k, j, isOld)
      ensures Ahead(front[k], isOld) + |Kept(front[k].lines[..j], isOld)| == End(front, isOld)
              && Gap(hunks, n, isOld) == 0 && Kept(hunks[n].lines, isOld) == []
    {
      assert MarksIn(hunks, k, j, isOld);
      MarkBeforeEnd(front, k, j, isOld);
    }
    forall j | 0 <= j < |hunks[n].lines| && MarksSide(hunks[n].lines, j, isOld)
        ensures Kept(hunks[n].lines[j..], isOld) == [] {
      assert MarksIn(hunks, n, j, isOld);
      KeptSplit(hunks[n].lines, j, isOld);
    }
  }

  lemma {:induction false} MarksSnocUp(hunks: seq<Hunk>, isOld: bool)
    requires hunks != [] && MarksLast(hunks[..|hunks| - 1], isOld) && MarksStep(hunks, isOld)
    ensures MarksLast(hunks, isOld)
  {
    var n := |hunks| - 1;
    var front := hunks[..n];
    hide Kept, MarksSide;
    forall k, j | MarksIn(hunks, k, j, isOld)
      ensures Ahead(hunks[k], isOld) + |Kept(hunks[k].lines[..j], isOld)| == End(hunks, isOld)
    {
      if k < n {
        assert MarksIn(front, k, j, isOld);
      } else {
        KeptSplit(hunks[n].lines, j, isOld);
      }
    }
  }

  /** The whole condition on a list of hunks. */
  ghost predicate Fits(hunks: seq<Hunk>, hasOld: bool, hasNew: bool, left: int) {
    && LinesUp(hunks) && TouchesPresent(hunks, hasOld, hasNew)
    && MarksLast(hunks, true) && MarksLast(hunks, false) && Cost(hunks) <= left
  }

  lemma {:induction false} FitsSnoc(hunks: seq<Hunk>, hasOld: bool, hasNew: bool, left: nat)
    requires hunks != []
    ensures var n := |hunks| - 1;
            Fits(hunks, hasOld, hasNew, left) <==>
              Fits(hunks[..n], hasOld, hasNew, left) && HunkFits(WorkBuilt(hunks[..n], left), hunks[n], hasOld, hasNew)
  {
    var n := |hunks| - 1;
    var front, h := hunks[..n], hunks[n];
    LinesUpSnoc(hunks);
    TouchesSnoc(hunks, hasOld, hasNew);
    hide LinesUp, TouchesPresent, MarksLast, Marked, Built, Kept, Bytes;
    assert Cost(hunks) == Cost(front) + 2 * Gap(hunks, n, true) + HunkCost(h);
    if LinesUp(front) {
      BuiltLength(front, true);
      BuiltLength(front, false);
      QuietStep(hunks, true);
      QuietStep(hunks, false);
      if LinesUp(hunks) {
        MarksSnoc(hunks, true);
        MarksSnoc(hunks, false);
      }
    }
  }

  lemma {:induction false} QuietStep(hunks: seq<Hunk>, isOld: bool)
    requires hunks != []
    ensures var n := |hunks| - 1;
            MarksStep(hunks, isOld) <==>
              && Quiet(hunks[n].lines, '\0', Marked(hunks[..n], isOld), isOld)
              && (Marked(hunks[..n], isOld) ==> Gap(hunks, n, isOld) == 0)
  {
    var lines := hunks[|hunks| - 1].lines;
    QuietMeaning(lines, '\0', Marked(hunks[..|hunks| - 1], isOld), isOld);
    hide Kept, Quiet, Gap, Marked, MarksSide, MarksFrom;
    forall j ensures MarksFrom(lines, '\0', j, isOld) <==> 0 <= j < |lines| && MarksSide(lines, j, isOld) {
      MarksFromStart(lines, j, isOld);
    }
  }

  /** Hunks are applied exactly when they fit, and then to what they show. */
  lemma {:induction false} HunksOkIff(hunks: seq<Hunk>, hasOld: bool, hasNew: bool, left: nat)
    ensures var r := ApplyHunks(Work(NO_LINES, NO_LINES, left), hunks, hasOld, hasNew);
            && (r.Ok? <==> Fits(hunks, hasOld, hasNew, left))
            && (r.Ok? ==> r.value == WorkBuilt(hunks, left))
  {
    var w := Work(NO_LINES, NO_LINES, left);
    if hunks != [] {
      var n := |hunks| - 1;
      var front, h := hunks[..n], hunks[n];
      assert front + [h] == hunks;
      HunksOkIff(front, hasOld, hasNew, left);
      HunksSnoc(w, front, h, hasOld, hasNew);
      FitsSnoc(hunks, hasOld, hasNew, left);
      hide ApplyHunks, HunkFits, AddHunk, LinesUp, MarksLast, TouchesPresent;
      if ApplyHunks(w, front, hasOld, hasNew).Ok? {
        HunkOkIff(WorkBuilt(front, left), h, hasOld, hasNew);
        if ApplyHunks(w, hunks, hasOld, hasNew).Ok? {
          BuiltSnoc(w, hunks, hasOld, hasNew, left);
        }
      }
    }
  }

  lemma {:induction false} BuiltSnoc(w: Work, hunks: seq<Hunk>, hasOld: bool, hasNew: bool, left: nat)
    requires hunks != [] && w == Work(NO_LINES, NO_LINES, left) && ApplyHunks(w, hunks, hasOld, hasNew).Ok?
    requires Fits(hunks, hasOld, hasNew, left)
    requires AddHunk(WorkBuilt(hunks[..|hunks| - 1], left), hunks[|hunks| - 1], hasOld, hasNew)
                 == ApplyHunks(w, hunks, hasOld, hasNew)
    ensures ApplyHunks(w, hunks, hasOld, hasNew).value == WorkBuilt(hunks, left)
  {
    var n := |hunks| - 1;
    var front := WorkBuilt(hunks[..n], left);
    LinesUpSnoc(hunks);
    hide *;
    FitsParts(hunks, hasOld, hasNew, left);
    BuiltLength(hunks[..n], true);
    BuiltLength(hunks[..n], false);
    WorkParts(hunks[..n], left);
    WorkParts(hunks, left);
    StartIsUnmarked(w, left);
    HunksMark(w, hunks, hasOld, hasNew, true);
    HunksMark(w, hunks, hasOld, hasNew, false);
    HunkOkIff(front, hunks[n], hasOld, hasNew);
    BuiltStep(hunks, true);
    BuiltStep(hunks, false);
    var r := ApplyHunks(w, hunks, hasOld, hasNew).value;
    SideIs(r);
    assert Ahead(hunks[n], true) - |front.was.lines| == Gap(hunks, n, true);
    assert r.was.lines == Built(hunks, true) && r.now.lines == Built(hunks, false) && r.left == left - Cost(hunks);
  }

  lemma {:induction false} FitsParts(hunks: seq<Hunk>, hasOld: bool, hasNew: bool, left: nat)
    requires hunks != [] && Fits(hunks, hasOld, hasNew, left)
    ensures var n := |hunks| - 1;
            LinesUp(hunks) && LinesUp(hunks[..n]) && 0 <= Gap(hunks, n, true) == Gap(hunks, n, false)
            && Cost(hunks[..n]) <= left
  {
    LinesUpSnoc(hunks);
    hide LinesUp, TouchesPresent, MarksLast, Kept, Bytes;
  }

  lemma {:induction false} WorkParts(hunks: seq<Hunk>, left: int)
    ensures var w := WorkBuilt(hunks, left);
            && w.was.lines == Built(hunks, true) && w.now.lines == Built(hunks, false) && w.left == left - Cost(hunks)
            && w.was.noEOL == Marked(hunks, true) && w.now.noEOL == Marked(hunks, false)
  {}

  lemma {:induction false} StartIsUnmarked(w: Work, left: nat)
    requires w == Work(NO_LINES, NO_LINES, left)
    ensures Sane(SideOf(w, true)) && Sane(SideOf(w, false)) && !SideOf(w, true).noEOL && !SideOf(w, false).noEOL
  {}

  lemma {:induction false} SideIs(w: Work)
    ensures SideOf(w, true) == w.was && SideOf(w, false) == w.now
  {}

  lemma {:induction false} BuiltStep(hunks: seq<Hunk>, isOld: bool)
    requires hunks != [] && Gap(hunks, |hunks| - 1, isOld) >= 0
    ensures var n := |hunks| - 1;
            && Built(hunks, isOld) == Built(hunks[..n], isOld) + Blank(Gap(hunks, n, isOld))
                   + Kept(hunks[n].lines, isOld)
            && Cost(hunks) == Cost(hunks[..n]) + 2 * Gap(hunks, n, true) + HunkCost(hunks[n])
            && Gap(hunks, n, isOld) == Ahead(hunks[n], isOld) - End(hunks[..n], isOld)
  {
    hide Blank, Kept, Bytes;
  }

  /**
   A section is reconstructed exactly when its hunks follow one another, start on the new side where
   the ones before put them, count lines only on sides that exist, mark only last lines, and their
   lines with the gaps between them fit what is left. It is then reconstructed to those lines, each
   at its place, and the budget falls by their cost.
   */
  lemma {:induction false} ReconstructIff(s: FileDiff, left: nat)
    ensures Reconstruct(s, left).Ok? <==> Sound(s) && Cost(s.hunks) <= left
    ensures Reconstruct(s, left).Ok? ==> Reconstruct(s, left).value == WorkBuilt(s.hunks, left)
  {
    HunksOkIff(s.hunks, s.oldPath != "", s.newPath != "", left);
  }
}
