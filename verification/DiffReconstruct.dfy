/**
 Models the second half of eval/golden/diff.go: rebuilding both sides of a file from its hunks
 (side, fileDiff.reconstruct) under one byte budget shared by every file (ParseDiff).
 */
module DiffReconstruct {
  import opened DiffParser
  import opened Optional
  import opened DiffPrinter

  // ---- Reconstruction over values ----

  /** One side: its lines, and whether the last one lacks its newline. */
  datatype Side = Side(lines: seq<string>, noEOL: bool)

  datatype Work = Work(was: Side, now: Side, left: int)

  function Blank(n: nat): (r: seq<string>)
    ensures |r| == n && forall k :: 0 <= k < n ==> r[k] == ""
  {
    if n == 0 then [] else Blank(n - 1) + [""]
  }

  function Added(s: Side, left: int, line: string): (r: Result<(Side, int)>) {
    if s.noEOL then Err(NotLastLine)
    else if left < |line| + 1 then Err(OverBudget)
    else Ok((s.(lines := s.lines + [line]), left - (|line| + 1)))
  }

  function Padded(s: Side, left: int, n: nat): (r: Result<(Side, int)>) {
    if n == 0 then Ok((s, left))
    else if s.noEOL then Err(NotLastLine)
    else if left < n then Err(OverBudget)
    else Ok((s.(lines := s.lines + Blank(n)), left - n))
  }

  /** One line of a hunk; last is the first byte of the line before it, or a NUL. */
  function ApplyLine(w: Work, line: string, last: char): (r: Result<Work>) {
    if line == "" then Ok(w)
    else
      match line[0]
      case ' ' =>
        var was :- Added(w.was, w.left, line[1..]);
        var now :- Added(w.now, was.1, line[1..]);
        Ok(Work(was.0, now.0, now.1))
      case '-' =>
        var was :- Added(w.was, w.left, line[1..]);
        Ok(Work(was.0, w.now, was.1))
      case '+' =>
        var now :- Added(w.now, w.left, line[1..]);
        Ok(Work(w.was, now.0, now.1))
      case '\\' =>
        Ok(Work(if last == ' ' || last == '-' then w.was.(noEOL := true) else w.was,
                if last == ' ' || last == '+' then w.now.(noEOL := true) else w.now, w.left))
      case _ => Ok(w)
  }

  function FirstByte(line: string): char { if line == "" then '\0' else line[0] }

  function ApplyLines(w: Work, lines: seq<string>, last: char): (r: Result<Work>)
    decreases |lines|
  {
    if lines == [] then Ok(w)
    else
      var next :- ApplyLine(w, lines[0], last);
      ApplyLines(next, lines[1..], FirstByte(lines[0]))
  }

  /** The first line a range covers, or would: an empty range names the line before it. */
  function FirstLine(start: nat, count: nat): nat { if count == 0 then start + 1 else start }

  function OldFirst(h: Hunk): nat { FirstLine(h.oldStart, h.oldCount) }

  function NewFirst(h: Hunk): nat { FirstLine(h.newStart, h.newCount) }

  /** The gap before a hunk is filled with blank lines on both sides. */
  function ApplyGap(w: Work, h: Hunk, hasOld: bool, hasNew: bool): (r: Result<Work>) {
    if !hasOld && h.oldCount != 0 then Err(RemovesFromCreated)
    else if !hasNew && h.newCount != 0 then Err(AddsToDeleted)
    else if OldFirst(h) < |w.was.lines| + 1 then Err(Overlaps)
    else
      var gap := OldFirst(h) - (|w.was.lines| + 1);
      if NewFirst(h) != |w.now.lines| + 1 + gap then Err(WrongNewStart)
      else
        var was :- Padded(w.was, w.left, gap);
        var now :- Padded(w.now, was.1, gap);
        Ok(Work(was.0, now.0, now.1))
  }

  function ApplyHunks(w: Work, hunks: seq<Hunk>, hasOld: bool, hasNew: bool): (r: Result<Work>)
    decreases |hunks|
  {
    if hunks == [] then Ok(w)
    else
      var padded :- ApplyGap(w, hunks[0], hasOld, hasNew);
      var next :- ApplyLines(padded, hunks[0].lines, '\0');
      ApplyHunks(next, hunks[1..], hasOld, hasNew)
  }

  const NO_LINES := Side([], false)

  function Reconstruct(s: FileDiff, left: int): (r: Result<Work>) {
    ApplyHunks(Work(NO_LINES, NO_LINES, left), s.hunks, s.oldPath != "", s.newPath != "")
  }

  /** The text of a side: its lines, the last without a newline when so marked. */
  function TextOf(s: Side): (text: string) {
    var text := Terminated(s.lines);
    if s.noEOL && text != "" && text[|text| - 1] == '\n' then text[..|text| - 1] else text
  }

  // ---- The builders the source fills in place ----

  class Budget {
    var left: int

    constructor (left: int)
      ensures this.left == left
    {
      this.left := left;
    }
  }

  class SideBuilder {
    var content: string
    var lines: nat
    var noEOL: bool
    const present: bool
    const budget: Budget
    ghost var body: seq<string>

    constructor (present: bool, budget: Budget)
      ensures this.present == present && this.budget == budget
      ensures Valid() && Value() == NO_LINES
    {
      this.present, this.budget := present, budget;
      content, lines, noEOL, body := "", 0, false, [];
    }

    ghost predicate Valid()
      reads this
    {
      content == Terminated(body) && lines == |body|
    }

    ghost function Value(): Side
      reads this
    {
      Side(body, noEOL)
    }

    method Add(line: string) returns (r: Result<()>)
      requires Valid()
      modifies this, budget
      ensures var spec := old(Added(Value(), budget.left, line));
              if spec.Ok? then r.Ok? && Valid() && Value() == spec.value.0 && budget.left == spec.value.1
              else r == Err(spec.error)
    {
      if noEOL {
        return Err(NotLastLine);
      }
      var ok := Charge(|line| + 1);
      if !ok {
        return Err(OverBudget);
      }
      content := content + line + "\n";
      lines := lines + 1;
      TerminatedExtends(body, [line]);
      OneTerminated(line);
      body := body + [line];
      return Ok(());
    }

    method Pad(n: nat) returns (r: Result<()>)
      requires Valid()
      modifies this, budget
      ensures var spec := old(Padded(Value(), budget.left, n));
              if spec.Ok? then r.Ok? && Valid() && Value() == spec.value.0 && budget.left == spec.value.1
              else r == Err(spec.error)
    {
      if n == 0 {
        return Ok(());
      }
      if noEOL {
        return Err(NotLastLine);
      }
      var ok := Charge(n);
      if !ok {
        return Err(OverBudget);
      }
      content := content + seq(n, _ => '\n');
      lines := lines + n;
      TerminatedExtends(body, Blank(n));
      BlankTerminated(n);
      body := body + Blank(n);
      return Ok(());
    }

    method Charge(n: nat) returns (ok: bool)
      modifies budget
      ensures budget.left == old(budget.left) - n && (ok <==> budget.left >= 0)
    {
      budget.left := budget.left - n;
      return budget.left >= 0;
    }

    /** file: None for an absent side. */
    method File() returns (text: Option<string>)
      requires Valid()
      ensures text == if present then Some(TextOf(Value())) else None
    {
      if !present {
        return None;
      }
      var c := content;
      if noEOL && |c| > 0 && c[|c| - 1] == '\n' {
        c := c[..|c| - 1];
      }
      return Some(c);
    }
  }

  lemma {:induction false} TerminatedExtends(a: seq<string>, b: seq<string>)
    ensures Terminated(a + b) == Terminated(a) + Terminated(b)
  {
    if a == [] {
      assert a + b == b;
    } else {
      assert (a + b)[1..] == a[1..] + b;
      TerminatedExtends(a[1..], b);
      assert (a[0] + "\n") + (Terminated(a[1..]) + Terminated(b)) == (a[0] + "\n" + Terminated(a[1..])) + Terminated(b);
    }
  }

  lemma OneTerminated(line: string)
    ensures Terminated([line]) == line + "\n"
  {
    assert [line][1..] == [] && line + "\n" + "" == line + "\n";
  }

  lemma {:induction false} BlankTerminated(n: nat)
    ensures Terminated(Blank(n)) == seq(n, _ => '\n')
  {
    if n > 0 {
      BlankTerminated(n - 1);
      TerminatedExtends(Blank(n - 1), [""]);
      OneTerminated("");
    }
  }

  /** The builders of both sides hold w. */
  ghost predicate Holds(was: SideBuilder, now: SideBuilder, w: Work)
    reads was, now, was.budget
  {
    was.Valid() && now.Valid() && was.budget == now.budget && w == Work(was.Value(), now.Value(), was.budget.left)
  }

  /** The inner loop of reconstruct over one hunk's lines. */
  method AddLines(was: SideBuilder, now: SideBuilder, lines: seq<string>, ghost w: Work) returns (r: Result<()>)
    requires was != now && Holds(was, now, w)
    modifies was, now, was.budget
    ensures r.Err? ==> ApplyLines(w, lines, '\0') == Err(r.error)
    ensures r.Ok? ==> ApplyLines(w, lines, '\0').Ok? && Holds(was, now, ApplyLines(w, lines, '\0').value)
  {
    ghost var goal := ApplyLines(w, lines, '\0');
    ghost var cur := w;
    var last := '\0';
    assert lines[0..] == lines;
    for i := 0 to |lines|
      invariant Holds(was, now, cur)
      invariant ApplyLines(cur, lines[i..], last) == goal
    {
      assert lines[i..][1..] == lines[i + 1..];
      ghost var step := ApplyLine(cur, lines[i], last);
      r := AddLine(was, now, lines[i], last, cur);
      if r.Err? {
        return;
      }
      cur := step.value;
      last := FirstByte(lines[i]);
    }
    assert lines[|lines|..] == [];
    r := Ok(());
  }

  /** The switch of reconstruct on a line's first byte. */
  method AddLine(was: SideBuilder, now: SideBuilder, line: string, last: char, ghost w: Work) returns (r: Result<()>)
    requires was != now && Holds(was, now, w)
    modifies was, now, was.budget
    ensures r.Err? ==> ApplyLine(w, line, last) == Err(r.error)
    ensures r.Ok? ==> ApplyLine(w, line, last).Ok? && Holds(was, now, ApplyLine(w, line, last).value)
  {
    r := Ok(());
    if line == "" {
      return;
    }
    match line[0] {
      case ' ' =>
        r := was.Add(line[1..]);
        if r.Ok? {
          r := now.Add(line[1..]);
        }
      case '-' => r := was.Add(line[1..]);
      case '+' => r := now.Add(line[1..]);
      case '\\' =>
        if last == ' ' {
          was.noEOL, now.noEOL := true, true;
        } else if last == '-' {
          was.noEOL := true;
        } else if last == '+' {
          now.noEOL := true;
        }
      case _ =>
    }
  }

  /** The checks of reconstruct on a hunk's position, and the blank lines before it. */
  method AddGap(was: SideBuilder, now: SideBuilder, h: Hunk, ghost w: Work) returns (r: Result<()>)
    requires was != now && Holds(was, now, w)
    modifies was, now, was.budget
    ensures r.Err? ==> ApplyGap(w, h, was.present, now.present) == Err(r.error)
    ensures r.Ok? ==>
              ApplyGap(w, h, was.present, now.present).Ok?
              && Holds(was, now, ApplyGap(w, h, was.present, now.present).value)
  {
    hide Padded, Terminated, Blank;
    var oldFirst, newFirst := h.oldStart, h.newStart;
    if h.oldCount == 0 {
      oldFirst := oldFirst + 1;
    }
    if h.newCount == 0 {
      newFirst := newFirst + 1;
    }
    if !was.present && h.oldCount != 0 {
      return Err(RemovesFromCreated);
    } else if !now.present && h.newCount != 0 {
      return Err(AddsToDeleted);
    } else if oldFirst < was.lines + 1 {
      return Err(Overlaps);
    }
    var gap := oldFirst - (was.lines + 1);
    if newFirst != now.lines + 1 + gap {
      return Err(WrongNewStart);
    }
    r := was.Pad(gap);
    if r.Ok? {
      r := now.Pad(gap);
    }
  }

  /** reconstruct: both texts, and the budget left in place. */
  method Rebuild(s: FileDiff, budget: Budget) returns (r: Result<(Option<string>, Option<string>)>)
    modifies budget
    ensures var spec := old(Reconstruct(s, budget.left));
            if spec.Err? then r == Err(spec.error)
            else
              && budget.left == spec.value.left
              && r == Ok((if s.oldPath != "" then Some(TextOf(spec.value.was)) else None,
                          if s.newPath != "" then Some(TextOf(spec.value.now)) else None))
  {
    var was := new SideBuilder(s.oldPath != "", budget);
    var now := new SideBuilder(s.newPath != "", budget);
    ghost var cur := Work(NO_LINES, NO_LINES, budget.left);
    ghost var goal := ApplyHunks(cur, s.hunks, was.present, now.present);
    assert s.hunks[0..] == s.hunks;
    for i := 0 to |s.hunks|
      invariant Holds(was, now, cur)
      invariant ApplyHunks(cur, s.hunks[i..], was.present, now.present) == goal
    {
      assert s.hunks[i..][1..] == s.hunks[i + 1..];
      ghost var padded := ApplyGap(cur, s.hunks[i], was.present, now.present);
      var ok := AddGap(was, now, s.hunks[i], cur);
      if ok.Err? {
        return Err(ok.error);
      }
      ok := AddLines(was, now, s.hunks[i].lines, padded.value);
      if ok.Err? {
        return Err(ok.error);
      }
      cur := ApplyLines(padded.value, s.hunks[i].lines, '\0').value;
    }
    assert s.hunks[|s.hunks|..] == [];
    var before := was.File();
    var after := now.File();
    return Ok((before, after));
  }
}
