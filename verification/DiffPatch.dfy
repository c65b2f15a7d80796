/**
 What an accepted diff's reconstruction means: Before and After are related by the hunks as a
 patch tool reads them, in both directions, and together stay within the byte budget.
 */
module DiffPatch {
  import opened DiffParser
  import opened DiffPrinter
  import opened DiffReconstruct

  // ---- A reference patch tool ----

  /** The lines of a hunk that exist on one side: context, and that side's own. */
  function Kept(lines: seq<string>, isOld: bool): (r: seq<string>) {
    if lines == [] then []
    else
      var own := if isOld then '-' else '+';
      (if lines[0] != "" && (lines[0][0] == ' ' || lines[0][0] == own) then [lines[0][1..]] else [])
          + Kept(lines[1..], isOld)
  }

  function First(h: Hunk, isOld: bool): nat { if isOld then OldFirst(h) else NewFirst(h) }

  datatype Patched = Patched(text: seq<string>, at: nat) | Rejected

  /**
   Reads source up to the last hunk's end, forwards (from old to new) or backwards: each hunk must
   find its source lines at its source position, and lands at its target position; what lies
   between hunks is copied.
   */
  function Patch(source: seq<string>, hunks: seq<Hunk>, forward: bool): (r: Patched)
    ensures r.Patched? ==> r.at <= |source|
  {
    if hunks == [] then Patched([], 0)
    else
      var before, h := Patch(source, hunks[..|hunks| - 1], forward), hunks[|hunks| - 1];
      if before.Rejected? then Rejected else PatchOne(source, before, h, forward)
  }

  function PatchOne(source: seq<string>, before: Patched, h: Hunk, forward: bool): (r: Patched)
    requires before.Patched? && before.at <= |source|
    ensures r.Patched? ==> r.at <= |source|
  {
    var at, need := First(h, forward) - 1, Kept(h.lines, forward);
    if before.at <= at && at + |need| <= |source| && source[at..at + |need|] == need
       && |before.text| + (at - before.at) == First(h, !forward) - 1
    then Patched(before.text + source[before.at..at] + Kept(h.lines, !forward), at + |need|)
    else Rejected
  }

  /** What a patch has read does not change when the source grows at its end. */
  lemma {:induction false} PatchOfLonger(source: seq<string>, more: seq<string>, hunks: seq<Hunk>, forward: bool)
    requires Patch(source, hunks, forward).Patched?
    ensures Patch(source + more, hunks, forward) == Patch(source, hunks, forward)
  {
    if hunks != [] {
      var front, h := hunks[..|hunks| - 1], hunks[|hunks| - 1];
      PatchOfLonger(source, more, front, forward);
      PatchOneOfLonger(source, more, Patch(source, front, forward), h, forward);
    }
  }

  lemma PatchOneOfLonger(source: seq<string>, more: seq<string>, before: Patched, h: Hunk, forward: bool)
    requires before.Patched? && before.at <= |source| && PatchOne(source, before, h, forward).Patched?
    ensures PatchOne(source + more, before, h, forward) == PatchOne(source, before, h, forward)
  {
    hide Kept;
    var at, need := First(h, forward) - 1, Kept(h.lines, forward);
    assert (source + more)[at..at + |need|] == source[at..at + |need|];
    assert (source + more)[before.at..at] == source[before.at..at];
  }

  // ---- What applying a hunk adds ----

  lemma {:induction false} LinesAppend(w: Work, lines: seq<string>, last: char)
    requires ApplyLines(w, lines, last).Ok?
    ensures var r := ApplyLines(w, lines, last).value;
            && r.was.lines == w.was.lines + Kept(lines, true)
            && r.now.lines == w.now.lines + Kept(lines, false)
    decreases |lines|
  {
    hide ApplyLine;
    hide Kept;
    if lines == [] {
      KeptNone();
      assert w.was.lines + [] == w.was.lines && w.now.lines + [] == w.now.lines;
    } else {
      var next := ApplyLine(w, lines[0], last).value;
      LineAppends(w, lines[0], last);
      LinesAppend(next, lines[1..], FirstByte(lines[0]));
      KeptCons(lines, true);
      KeptCons(lines, false);
      assert w.was.lines + (Kept([lines[0]], true) + Kept(lines[1..], true)) == next.was.lines + Kept(lines[1..], true);
      assert w.now.lines + (Kept([lines[0]], false) + Kept(lines[1..], false)) == next.now.lines
                 + Kept(lines[1..], false);
    }
  }

  lemma LineAppends(w: Work, line: string, last: char)
    requires ApplyLine(w, line, last).Ok?
    ensures var r := ApplyLine(w, line, last).value;
            && r.was.lines == w.was.lines + Kept([line], true)
            && r.now.lines == w.now.lines + Kept([line], false)
  {
    KeptOne(line, true);
    KeptOne(line, false);
    hide Kept;
    assert w.was.lines + [] == w.was.lines && w.now.lines + [] == w.now.lines;
  }

  lemma KeptNone()
    ensures Kept([], true) == [] && Kept([], false) == []
  {}

  lemma KeptOne(line: string, isOld: bool)
    ensures Kept([line], isOld) ==
            if line != "" && (line[0] == ' ' || line[0] == (if isOld then '-' else '+')) then [line[1..]] else []
  {
    assert Kept([line][1..], isOld) == [];
  }

  lemma KeptCons(lines: seq<string>, isOld: bool)
    requires lines != []
    ensures Kept(lines, isOld) == Kept([lines[0]], isOld) + Kept(lines[1..], isOld)
  {
    KeptOne(lines[0], isOld);
  }

  lemma GapAppends(w: Work, h: Hunk, hasOld: bool, hasNew: bool)
    requires ApplyGap(w, h, hasOld, hasNew).Ok?
    ensures var r := ApplyGap(w, h, hasOld, hasNew).value;
            && OldFirst(h) > |w.was.lines|
            && NewFirst(h) - |w.now.lines| == OldFirst(h) - |w.was.lines|
            && r.was.lines == w.was.lines + Blank(OldFirst(h) - 1 - |w.was.lines|)
            && r.now.lines == w.now.lines + Blank(OldFirst(h) - 1 - |w.was.lines|)
  {
    assert w.was.lines + Blank(0) == w.was.lines && w.now.lines + Blank(0) == w.now.lines;
  }

  // ---- Patch correctness ----

  /** The hunks done so far patch each side into the other, end to end. */
  ghost predicate Patches(was: seq<string>, now: seq<string>, done: seq<Hunk>) {
    && Patch(was, done, true) == Patched(now, |was|)
    && Patch(now, done, false) == Patched(was, |now|)
  }

  lemma OneMoreHunk(from: seq<string>, to: seq<string>, gap: seq<string>, done: seq<Hunk>, h: Hunk, forward: bool)
    requires Patch(from, done, forward) == Patched(to, |from|)
    requires First(h, forward) == |from| + |gap| + 1 && First(h, !forward) == |to| + |gap| + 1
    ensures var longer := from + gap + Kept(h.lines, forward);
            Patch(longer, done + [h], forward) == Patched(to + gap + Kept(h.lines, !forward), |longer|)
  {
    hide *;
    var need := Kept(h.lines, forward);
    var longer := from + gap + need;
    PatchOfLonger(from, gap + need, done, forward);
    assert from + (gap + need) == longer;
    PatchSnoc(longer, done, h, forward);
    PatchOneAtEnd(from, to, gap, h, forward);
  }

  lemma PatchSnoc(source: seq<string>, done: seq<Hunk>, h: Hunk, forward: bool)
    requires Patch(source, done, forward).Patched?
    ensures Patch(source, done + [h], forward) == PatchOne(source, Patch(source, done, forward), h, forward)
  {
    hide PatchOne;
    assert (done + [h])[..|done|] == done;
  }

  lemma PatchOneAtEnd(from: seq<string>, to: seq<string>, gap: seq<string>, h: Hunk, forward: bool)
    requires First(h, forward) == |from| + |gap| + 1 && First(h, !forward) == |to| + |gap| + 1
    ensures var longer := from + gap + Kept(h.lines, forward);
            PatchOne(longer, Patched(to, |from|), h, forward) == Patched(to + gap + Kept(h.lines, !forward), |longer|)
  {
    hide Kept;
    hide First;
    var need := Kept(h.lines, forward);
    var longer := from + gap + need;
    var at := |from| + |gap|;
    assert longer[at..at + |need|] == need;
    assert longer[|from|..at] == gap;
  }

  lemma HunkKeepsPatches(w: Work, padded: Work, next: Work, h: Hunk, done: seq<Hunk>, hasOld: bool, hasNew: bool)
    requires Patches(w.was.lines, w.now.lines, done)
    requires ApplyGap(w, h, hasOld, hasNew) == Ok(padded) && ApplyLines(padded, h.lines, '\0') == Ok(next)
    ensures Patches(next.was.lines, next.now.lines, done + [h])
  {
    GapAppends(w, h, hasOld, hasNew);
    LinesAppend(padded, h.lines, '\0');
    hide *;
    var gap := Blank(OldFirst(h) - 1 - |w.was.lines|);
    FirstIs(h);
    OneMoreHunk(w.was.lines, w.now.lines, gap, done, h, true);
    OneMoreHunk(w.now.lines, w.was.lines, gap, done, h, false);
    assert Patches(next.was.lines, next.now.lines, done + [h]) by {
      PatchesFrom(next.was.lines, next.now.lines, done + [h]);
    }
  }

  lemma FirstIs(h: Hunk)
    ensures First(h, true) == OldFirst(h) && First(h, false) == NewFirst(h)
  {}

  lemma PatchesFrom(was: seq<string>, now: seq<string>, done: seq<Hunk>)
    requires Patch(was, done, true) == Patched(now, |was|) && Patch(now, done, false) == Patched(was, |now|)
    ensures Patches(was, now, done)
  {}

  lemma {:induction false} HunksPatch(w: Work, hunks: seq<Hunk>, done: seq<Hunk>, hasOld: bool, hasNew: bool)
    requires Patches(w.was.lines, w.now.lines, done) && ApplyHunks(w, hunks, hasOld, hasNew).Ok?
    ensures var r := ApplyHunks(w, hunks, hasOld, hasNew).value; Patches(r.was.lines, r.now.lines, done + hunks)
    decreases |hunks|
  {
    hide Patches;
    hide ApplyGap;
    hide ApplyLines;
    if hunks == [] {
      assert done + hunks == done;
    } else {
      var padded := ApplyGap(w, hunks[0], hasOld, hasNew).value;
      var next := ApplyLines(padded, hunks[0].lines, '\0').value;
      HunkKeepsPatches(w, padded, next, hunks[0], done, hasOld, hasNew);
      HunksPatch(next, hunks[1..], done + [hunks[0]], hasOld, hasNew);
      assert done + [hunks[0]] + hunks[1..] == done + hunks;
    }
  }

  /**
   The reconstruction of a section is a patch pair: applying its hunks to Before gives After, and
   undoing them from After gives Before, each hunk at the line its header names.
   */
  lemma ReconstructionIsPatch(s: FileDiff, left: int)
    requires Reconstruct(s, left).Ok?
    ensures var w := Reconstruct(s, left).value; Patches(w.was.lines, w.now.lines, s.hunks)
  {
    HunksPatch(Work(NO_LINES, NO_LINES, left), s.hunks, [], s.oldPath != "", s.newPath != "");
    assert [] + s.hunks == s.hunks;
  }

  // ---- No-newline marks ----

  /** Nothing can follow a side's marked line. */
  lemma {:induction false} MarkedSideIsFinal(w: Work, lines: seq<string>, last: char)
    requires ApplyLines(w, lines, last).Ok?
    ensures var r := ApplyLines(w, lines, last).value;
            && (w.was.noEOL ==> r.was == w.was)
            && (w.now.noEOL ==> r.now == w.now)
    decreases |lines|
  {
    if lines != [] {
      MarkedSideIsFinal(ApplyLine(w, lines[0], last).value, lines[1..], FirstByte(lines[0]));
    }
  }

  lemma {:induction false} MarkedSideIsFinalAcross(w: Work, hunks: seq<Hunk>, hasOld: bool, hasNew: bool)
    requires ApplyHunks(w, hunks, hasOld, hasNew).Ok?
    ensures var r := ApplyHunks(w, hunks, hasOld, hasNew).value;
            && (w.was.noEOL ==> r.was == w.was)
            && (w.now.noEOL ==> r.now == w.now)
    decreases |hunks|
  {
    if hunks != [] {
      var padded := ApplyGap(w, hunks[0], hasOld, hasNew).value;
      MarkedSideIsFinal(padded, hunks[0].lines, '\0');
      MarkedSideIsFinalAcross(ApplyLines(padded, hunks[0].lines, '\0').value, hunks[1..], hasOld, hasNew);
    }
  }

  /** A marker at index j of a hunk's lines that belongs to this side's line before it. */
  predicate MarksSide(lines: seq<string>, j: nat, isOld: bool) {
    && 0 < j < |lines| && IsMarker(lines[j]) && lines[j - 1] != ""
    && (lines[j - 1][0] == ' ' || lines[j - 1][0] == (if isOld then '-' else '+'))
  }

  function SideOf(w: Work, isOld: bool): Side { if isOld then w.was else w.now }

  /** The side a marker marks ends, for good, with the line before the marker. */
  lemma {:induction false} MarkEndsLines(w: Work, lines: seq<string>, last: char, j: nat, isOld: bool)
    requires ApplyLines(w, lines, last).Ok? && MarksSide(lines, j, isOld)
    ensures var r := SideOf(ApplyLines(w, lines, last).value, isOld);
            r.noEOL && |r.lines| == |SideOf(w, isOld).lines| + |Kept(lines[..j], isOld)|
    decreases |lines|
  {
    var next := ApplyLine(w, lines[0], last).value;
    assert lines[..j][1..] == lines[1..][..j - 1];
    if j == 1 {
      var marked := ApplyLine(next, lines[1], FirstByte(lines[0])).value;
      assert lines[1..][0] == lines[1];
      MarkedSideIsFinal(marked, lines[1..][1..], FirstByte(lines[1]));
      assert Kept(lines[..1][1..], isOld) == [];
    } else {
      MarkEndsLines(next, lines[1..], FirstByte(lines[0]), j - 1, isOld);
      KeptCons(lines[..j], isOld);
      KeptOne(lines[0], isOld);
    }
  }

  /** A mark in any hunk falls on the last line of its side of the whole file, which then has no newline. */
  lemma {:induction false} MarksFallOnLastLine(w: Work, hunks: seq<Hunk>, hasOld: bool, hasNew: bool, k: nat, j: nat,
      isOld: bool)
    requires ApplyHunks(w, hunks, hasOld, hasNew).Ok? && k < |hunks| && MarksSide(hunks[k].lines, j, isOld)
    ensures var r := SideOf(ApplyHunks(w, hunks, hasOld, hasNew).value, isOld);
            r.noEOL && |r.lines| == First(hunks[k], isOld) - 1 + |Kept(hunks[k].lines[..j], isOld)|
    decreases |hunks|
  {
    var padded := ApplyGap(w, hunks[0], hasOld, hasNew).value;
    var next := ApplyLines(padded, hunks[0].lines, '\0').value;
    if k == 0 {
      GapAppends(w, hunks[0], hasOld, hasNew);
      MarkEndsLines(padded, hunks[0].lines, '\0', j, isOld);
      hide Kept;
      MarkedSideIsFinalAcross(next, hunks[1..], hasOld, hasNew);
    } else {
      MarksFallOnLastLine(next, hunks[1..], hasOld, hasNew, k - 1, j, isOld);
    }
  }

  // ---- The shared budget ----

  /** The budget pays for every byte of both sides, newlines included. */
  lemma {:induction false} LinesArePaid(w: Work, lines: seq<string>, last: char)
    requires ApplyLines(w, lines, last).Ok? && 0 <= w.left
    ensures var r := ApplyLines(w, lines, last).value;
            && 0 <= r.left
            && r.left + |Terminated(r.was.lines)| + |Terminated(r.now.lines)|
               == w.left + |Terminated(w.was.lines)| + |Terminated(w.now.lines)|
    decreases |lines|
  {
    if lines != [] {
      LineIsPaid(w, lines[0], last);
      hide Terminated;
      hide ApplyLine;
      LinesArePaid(ApplyLine(w, lines[0], last).value, lines[1..], FirstByte(lines[0]));
    }
  }

  lemma LineIsPaid(w: Work, line: string, last: char)
    requires ApplyLine(w, line, last).Ok? && 0 <= w.left
    ensures var r := ApplyLine(w, line, last).value;
            && 0 <= r.left
            && r.left + |Terminated(r.was.lines)| + |Terminated(r.now.lines)|
               == w.left + |Terminated(w.was.lines)| + |Terminated(w.now.lines)|
  {
    hide Terminated;
    if line != "" {
      TerminatedExtends(w.was.lines, [line[1..]]);
      TerminatedExtends(w.now.lines, [line[1..]]);
      OneTerminated(line[1..]);
    }
  }

  lemma GapIsPaid(w: Work, h: Hunk, hasOld: bool, hasNew: bool)
    requires ApplyGap(w, h, hasOld, hasNew).Ok? && 0 <= w.left
    ensures var r := ApplyGap(w, h, hasOld, hasNew).value;
            && 0 <= r.left
            && r.left + |Terminated(r.was.lines)| + |Terminated(r.now.lines)|
               == w.left + |Terminated(w.was.lines)| + |Terminated(w.now.lines)|
  {
    hide Terminated;
    var gap := OldFirst(h) - (|w.was.lines| + 1);
    TerminatedExtends(w.was.lines, Blank(gap));
    TerminatedExtends(w.now.lines, Blank(gap));
    BlankTerminated(gap);
  }

  lemma {:induction false} HunksArePaid(w: Work, hunks: seq<Hunk>, hasOld: bool, hasNew: bool)
    requires ApplyHunks(w, hunks, hasOld, hasNew).Ok? && 0 <= w.left
    ensures var r := ApplyHunks(w, hunks, hasOld, hasNew).value;
            && 0 <= r.left
            && r.left + |Terminated(r.was.lines)| + |Terminated(r.now.lines)|
               == w.left + |Terminated(w.was.lines)| + |Terminated(w.now.lines)|
    decreases |hunks|
  {
    hide ApplyGap;
    hide ApplyLines;
    hide Terminated;
    if hunks != [] {
      GapIsPaid(w, hunks[0], hasOld, hasNew);
      var padded := ApplyGap(w, hunks[0], hasOld, hasNew).value;
      LinesArePaid(padded, hunks[0].lines, '\0');
      HunksArePaid(ApplyLines(padded, hunks[0].lines, '\0').value, hunks[1..], hasOld, hasNew);
    }
  }

  lemma ReconstructionIsPaid(s: FileDiff, left: nat)
    requires Reconstruct(s, left).Ok?
    ensures var w := Reconstruct(s, left).value;
            0 <= w.left && w.left + |TextOf(w.was)| + |TextOf(w.now)| <= left
  {
    HunksArePaid(Work(NO_LINES, NO_LINES, left), s.hunks, s.oldPath != "", s.newPath != "");
  }

  // ---- What the parser guarantees of a body ----

  lemma {:induction false} BodyIsCounted(rest: seq<string>, oldLeft: nat, newLeft: nat, got: seq<string>)
    requires ParseBody(rest, oldLeft, newLeft, got).Ok?
    ensures var body := ParseBody(rest, oldLeft, newLeft, got).value.0;
            && |Kept(body, true)| == |Kept(got, true)| + oldLeft
            && |Kept(body, false)| == |Kept(got, false)| + newLeft
    decreases |rest|
  {
    if rest != [] && (IsMarker(rest[0]) || oldLeft != 0 || newLeft != 0) {
      var line := if IsMarker(rest[0]) then "\\" else if rest[0] == "" then " " else rest[0];
      BodyIsCounted(rest[1..], if line[0] == ' ' || line[0] == '-' then oldLeft - 1 else oldLeft,
                    if line[0] == ' ' || line[0] == '+' then newLeft - 1 else newLeft, got + [line]);
      hide ParseBody;
      KeptSnoc(got, line, true);
      KeptSnoc(got, line, false);
      KeptOne(line, true);
      KeptOne(line, false);
    }
  }

  lemma {:induction false} KeptSnoc(lines: seq<string>, line: string, isOld: bool)
    ensures Kept(lines + [line], isOld) == Kept(lines, isOld) + Kept([line], isOld)
  {
    if lines == [] {
      assert lines + [line] == [line];
    } else {
      assert (lines + [line])[1..] == lines[1..] + [line];
      KeptSnoc(lines[1..], line, isOld);
    }
  }

  /** A hunk has as many lines on each side as its header says. */
  predicate Counted(h: Hunk) {
    |Kept(h.lines, true)| == h.oldCount && |Kept(h.lines, false)| == h.newCount
  }

  lemma {:induction false} HunksAreCounted(rest: seq<string>, got: seq<Hunk>)
    requires ParseHunks(rest, got).Ok? && forall h | h in got :: Counted(h)
    ensures forall h | h in ParseHunks(rest, got).value.0 :: Counted(h)
    decreases |rest|
  {
    if rest != [] && "@@ " <= rest[0] {
      var h := ParseHunk(rest).value;
      var header := ParseHeader(rest[0]).value;
      BodyIsCounted(rest[1..], header.oldCount, header.newCount, []);
      HunksAreCounted(h.1, got + [h.0]);
    }
  }

  predicate SectionCounted(s: FileDiff) { forall h | h in s.hunks :: Counted(h) }

  lemma SectionIsCounted(rest: seq<string>)
    requires rest != [] && "--- " <= rest[0] && ParseSection(rest).Ok?
    ensures SectionCounted(ParseSection(rest).value.0)
  {
    hide ParseHunks;
    hide DiffPath;
    hide Counted;
    HunksAreCounted(rest[2..], []);
  }

  lemma {:induction false} SectionsAreCounted(rest: seq<string>, inGitHeader: bool, got: seq<FileDiff>)
    requires SplitDiff(rest, inGitHeader, got).Ok? && forall s | s in got :: SectionCounted(s)
    ensures forall s | s in SplitDiff(rest, inGitHeader, got).value :: SectionCounted(s)
    decreases |rest|
  {
    hide SectionCounted;
    hide ParseSection;
    hide ExtendedHeader;
    hide UnsupportedHeader;
    if rest != [] {
      if !("diff --git " <= rest[0]) && !(inGitHeader && ExtendedHeader(rest[0])) && "--- " <= rest[0] {
        var s := ParseSection(rest).value;
        SectionIsCounted(rest);
        SectionsAreCounted(s.1, false, got + [s.0]);
      } else {
        SectionsAreCounted(rest[1..], inGitHeader || "diff --git " <= rest[0], got);
      }
    }
  }
}
