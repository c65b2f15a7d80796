/**
 Models the unified-diff parser of eval/golden/diff.go: splitDiff, parseSection, parseHunk,
 hunkRange and the path checks. A char stands for one byte. The functions read a list of
 lines and return what is left of it; the methods walk the list with an index as the source
 does.
 */
module DiffParser {
  const MAX_FIXTURE_BYTES := 0x80_0000

  datatype Hunk = Hunk(oldStart: nat, oldCount: nat, newStart: nat, newCount: nat, lines: seq<string>, header: string)

  /** A path is "" on a side that is /dev/null. */
  datatype FileDiff = FileDiff(oldPath: string, newPath: string, hunks: seq<Hunk>) {
    function Path(): string { if newPath != "" then newPath else oldPath }
  }

  datatype Error =
    | NoFileLines | Unsupported | Unexpected | NoPlusLine | Quoted | WrongPrefix | BadPath | BothNull | Renamed
    | MalformedHeader | BadRange | MisplacedMarker | EndsEarly | TooManyLines | TooFewLines | NoHunks
    | RemovesFromCreated | AddsToDeleted | Overlaps | WrongNewStart | NotLastLine | OverBudget
    | NoSections | DuplicateFile | NothingChanged

  datatype Result<T> = Ok(value: T) | Err(error: Error) {
    predicate IsFailure() { Err? }
    function PropagateFailure<U>(): Result<U> requires Err? { Err(error) }
    function Extract(): T requires Ok? { value }
  }

  // ---- Text ----

  /** The offset of the first c, or |s|. */
  function IndexOf(s: string, c: char): (i: nat)
    ensures i <= |s| && (i < |s| ==> s[i] == c) && forall k :: 0 <= k < i ==> s[k] != c
  {
    if s == "" || s[0] == c then 0 else 1 + IndexOf(s[1..], c)
  }

  /** strings.Split(s, c). */
  function Split(s: string, c: char): (parts: seq<string>)
    ensures |parts| > 0
    decreases |s|
  {
    var i := IndexOf(s, c);
    if i == |s| then [s] else [s[..i]] + Split(s[i + 1..], c)
  }

  /** The lines of a diff, without the empty piece after a final newline. */
  function LinesOf(diff: string): (lines: seq<string>) {
    var lines := Split(diff, '\n');
    if lines[|lines| - 1] == "" then lines[..|lines| - 1] else lines
  }

  predicate IsDigit(c: char) { '0' <= c <= '9' }

  predicate AllDigits(s: string) { forall k | 0 <= k < |s| :: IsDigit(s[k]) }

  /** The length of the run of digits s starts with. */
  function Digits(s: string): (n: nat)
    ensures n <= |s| && AllDigits(s[..n])
  {
    if s == "" || !IsDigit(s[0]) then 0 else 1 + Digits(s[1..])
  }

  function Number(s: string): (n: nat)
    requires AllDigits(s)
  {
    if s == "" then 0 else assert IsDigit(s[|s| - 1]); 10 * Number(s[..|s| - 1]) + (s[|s| - 1] as int - '0' as int)
  }

  // ---- Paths ----

  predicate FoldsToGit(part: string) {
    && |part| == 4 && part[0] == '.' && part[1] in {'g', 'G'} && part[2] in {'i', 'I'} && part[3] in {'t', 'T'}
  }

  /** checkRelPath: a clean relative path that stays inside the workspace and outside .git. */
  predicate LegalPath(p: string) {
    && '\\' !in p
    && forall part | part in Split(p, '/') :: part != "" && part != "." && part != ".." && !FoldsToGit(part)
  }

  function DiffPath(field: string, prefix: string): (r: Result<string>) {
    var name := field[..IndexOf(field, '\t')];
    if name == "/dev/null" then Ok("")
    else if "\"" <= name then Err(Quoted)
    else if !(prefix <= name) then Err(WrongPrefix)
    else if !LegalPath(name[|prefix|..]) then Err(BadPath)
    else Ok(name[|prefix|..])
  }

  // ---- Hunks ----

  datatype Range = Range(start: string, count: string, rest: string)

  /** The regular expression (\d+)(?:,(\d+))? at the start of s. */
  function ParseRange(s: string): (r: Result<Range>)
    ensures r.Ok? ==> AllDigits(r.value.start) && AllDigits(r.value.count)
  {
    var n := Digits(s);
    if n == 0 then Err(MalformedHeader)
    else
      var rest := s[n..];
      var m := if "," <= rest then Digits(rest[1..]) else 0;
      if m == 0 then Ok(Range(s[..n], "", rest)) else Ok(Range(s[..n], rest[1..][..m], rest[1..][m..]))
  }

  /** hunkRange; a number too large for Go's int is over the size limit as well. */
  function HunkRange(start: string, count: string): (r: Result<(nat, nat)>)
    requires AllDigits(start) && AllDigits(count)
  {
    var s := Number(start);
    var c := if count == "" then 1 else Number(count);
    if s == 0 && c != 0 then Err(BadRange)
    else if s > MAX_FIXTURE_BYTES || c > MAX_FIXTURE_BYTES then Err(BadRange)
    else Ok((s, c))
  }

  /** The header of a hunk whose lines are yet to be read. */
  function ParseHeader(line: string): (r: Result<Hunk>) {
    if !("@@ -" <= line) then Err(MalformedHeader)
    else
      var was :- ParseRange(line[4..]);
      if !(" +" <= was.rest) then Err(MalformedHeader)
      else
        var cur :- ParseRange(was.rest[2..]);
        if !(" @@" <= cur.rest) then Err(MalformedHeader)
        else
          var o :- HunkRange(was.start, was.count);
          var n :- HunkRange(cur.start, cur.count);
          Ok(Hunk(o.0, o.1, n.0, n.1, [], line[..|line| - |cur.rest| + 3]))
  }

  predicate IsMarker(line: string) { line != "" && line[0] == '\\' }

  /** The body of a hunk: the lines its header still counts, and markers. */
  function ParseBody(rest: seq<string>, oldLeft: nat, newLeft: nat,
      got: seq<string>): (r: Result<(seq<string>, seq<string>)>)
    ensures r.Ok? ==> |r.value.1| <= |rest| && rest[|rest| - |r.value.1|..] == r.value.1
    decreases |rest|
  {
    if rest == [] then (if oldLeft == 0 && newLeft == 0 then Ok((got, rest)) else Err(TooFewLines))
    else if IsMarker(rest[0]) then
      if got == [] || IsMarker(got[|got| - 1]) then Err(MisplacedMarker)
      else ParseBody(rest[1..], oldLeft, newLeft, got + ["\\"])
    else if oldLeft == 0 && newLeft == 0 then Ok((got, rest))
    else
      var line := if rest[0] == "" then " " else rest[0];
      if line[0] !in {' ', '-', '+'} then Err(EndsEarly)
      else if line[0] != '+' && oldLeft == 0 then Err(TooManyLines)
      else if line[0] != '-' && newLeft == 0 then Err(TooManyLines)
      else
        ParseBody(rest[1..], if line[0] == '+' then oldLeft else oldLeft - 1,
                  if line[0] == '-' then newLeft else newLeft - 1, got + [line])
  }

  function ParseHunk(rest: seq<string>): (r: Result<(Hunk, seq<string>)>)
    requires rest != []
    ensures r.Ok? ==> |r.value.1| < |rest| && rest[|rest| - |r.value.1|..] == r.value.1
  {
    var h :- ParseHeader(rest[0]);
    var body :- ParseBody(rest[1..], h.oldCount, h.newCount, []);
    Ok((h.(lines := body.0), body.1))
  }

  // ---- Sections ----

  function ParseHunks(rest: seq<string>, got: seq<Hunk>): (r: Result<(seq<Hunk>, seq<string>)>)
    ensures r.Ok? ==> |r.value.1| <= |rest| && rest[|rest| - |r.value.1|..] == r.value.1
    decreases |rest|
  {
    if rest == [] || !("@@ " <= rest[0]) then Ok((got, rest))
    else
      var h :- ParseHunk(rest);
      ParseHunks(h.1, got + [h.0])
  }

  function ParseSection(rest: seq<string>): (r: Result<(FileDiff, seq<string>)>)
    requires rest != [] && "--- " <= rest[0]
    ensures r.Ok? ==> |r.value.1| < |rest| && rest[|rest| - |r.value.1|..] == r.value.1
  {
    if |rest| < 2 || !("+++ " <= rest[1]) then Err(NoPlusLine)
    else
      var oldPath :- DiffPath(rest[0][4..], "a/");
      var newPath :- DiffPath(rest[1][4..], "b/");
      if oldPath == "" && newPath == "" then Err(BothNull)
      else if oldPath != "" && newPath != "" && oldPath != newPath then Err(Renamed)
      else
        var hunks :- ParseHunks(rest[2..], []);
        if hunks.0 == [] then Err(NoHunks) else Ok((FileDiff(oldPath, newPath, hunks.0), hunks.1))
  }

  predicate ExtendedHeader(line: string) {
    || "index " <= line || "new file mode " <= line || "deleted file mode " <= line
    || "old mode " <= line || "new mode " <= line
  }

  predicate UnsupportedHeader(line: string) {
    || "similarity index " <= line || "dissimilarity index " <= line || "rename from " <= line || "rename to " <= line
    || "copy from " <= line || "copy to " <= line || "Binary files " <= line || "GIT binary patch" <= line
  }

  function SplitDiff(rest: seq<string>, inGitHeader: bool, got: seq<FileDiff>): (r: Result<seq<FileDiff>>)
    decreases |rest|
  {
    if rest == [] then (if inGitHeader then Err(NoFileLines) else Ok(got))
    else if "diff --git " <= rest[0] then
      if inGitHeader then Err(NoFileLines) else SplitDiff(rest[1..], true, got)
    else if inGitHeader && UnsupportedHeader(rest[0]) then Err(Unsupported)
    else if inGitHeader && ExtendedHeader(rest[0]) then SplitDiff(rest[1..], inGitHeader, got)
    else if "--- " <= rest[0] then
      var s :- ParseSection(rest);
      SplitDiff(s.1, false, got + [s.0])
    else if rest[0] == "" && !inGitHeader then SplitDiff(rest[1..], inGitHeader, got)
    else Err(Unexpected)
  }

  // ---- The parser's loops ----

  /** ParseBody at an index, one line at a time. */
  lemma BodyAt(lines: seq<string>, i: nat, oldLeft: nat, newLeft: nat, got: seq<string>)
    requires i <= |lines|
    ensures var r := ParseBody(lines[i..], oldLeft, newLeft, got);
            if i == |lines| then r == if oldLeft == 0 && newLeft == 0 then Ok((got, lines[i..])) else Err(TooFewLines)
            else if IsMarker(lines[i]) then
              r == if got == [] || IsMarker(got[|got| - 1]) then Err(MisplacedMarker)
                   else ParseBody(lines[i + 1..], oldLeft, newLeft, got + ["\\"])
            else if oldLeft == 0 && newLeft == 0 then r == Ok((got, lines[i..]))
            else
              var line := if lines[i] == "" then " " else lines[i];
              r == if line[0] !in {' ', '-', '+'} then Err(EndsEarly)
                   else if (line[0] != '+' && oldLeft == 0) || (line[0] != '-' && newLeft == 0) then Err(TooManyLines)
                   else ParseBody(lines[i + 1..], if line[0] == '+' then oldLeft else oldLeft - 1,
                                  if line[0] == '-' then newLeft else newLeft - 1, got + [line])
  {
    if i < |lines| {
      assert lines[i..][0] == lines[i] && lines[i..][1..] == lines[i + 1..];
    }
  }

  /** The loop of parseHunk: exactly the lines the header counts, plus any markers. */
  method ReadBody(lines: seq<string>, start: nat, oldCount: nat, newCount: nat) returns (r: Result<(seq<string>, nat)>)
    requires start <= |lines|
    ensures r.Err? ==> ParseBody(lines[start..], oldCount, newCount, []) == Err(r.error)
    ensures r.Ok? ==> start <= r.value.1 <= |lines|
                      && ParseBody(lines[start..], oldCount, newCount, []) == Ok((r.value.0, lines[r.value.1..]))
  {
    hide ParseBody;
    var body: seq<string> := [];
    var oldLeft: int, newLeft: int := oldCount, newCount;
    var i := start;
    ghost var goal := ParseBody(lines[start..], oldCount, newCount, []);
    while i < |lines|
      invariant start <= i <= |lines| && 0 <= oldLeft && 0 <= newLeft
      invariant ParseBody(lines[i..], oldLeft, newLeft, body) == goal
    {
      var line := lines[i];
      BodyAt(lines, i, oldLeft, newLeft, body);
      if IsMarker(line) {
        if |body| == 0 || IsMarker(body[|body| - 1]) {
          return Err(MisplacedMarker);
        }
        body := body + ["\\"];
        i := i + 1;
        continue;
      }
      if oldLeft == 0 && newLeft == 0 {
        break;
      }
      if line == "" {
        line := " ";
      }
      match line[0] {
        case ' ' => oldLeft, newLeft := oldLeft - 1, newLeft - 1;
        case '-' => oldLeft := oldLeft - 1;
        case '+' => newLeft := newLeft - 1;
        case _ => return Err(EndsEarly);
      }
      if oldLeft < 0 || newLeft < 0 {
        return Err(TooManyLines);
      }
      body := body + [line];
      i := i + 1;
    }
    BodyAt(lines, i, oldLeft, newLeft, body);
    if oldLeft != 0 || newLeft != 0 {
      return Err(TooFewLines);
    }
    return Ok((body, i));
  }

  /** parseHunk. */
  method ReadHunk(lines: seq<string>, start: nat) returns (r: Result<(Hunk, nat)>)
    requires start < |lines|
    ensures r.Err? ==> ParseHunk(lines[start..]) == Err(r.error)
    ensures r.Ok? ==> start < r.value.1 <= |lines| && ParseHunk(lines[start..]) == Ok((r.value.0, lines[r.value.1..]))
  {
    var h := ParseHeader(lines[start]);
    if h.Err? {
      return Err(h.error);
    }
    assert lines[start..][1..] == lines[start + 1..];
    var body := ReadBody(lines, start + 1, h.value.oldCount, h.value.newCount);
    if body.Err? {
      return Err(body.error);
    }
    return Ok((h.value.(lines := body.value.0), body.value.1));
  }

  /** The loop of parseSection: hunks while the next line starts one. */
  method ReadHunks(lines: seq<string>, start: nat) returns (r: Result<(seq<Hunk>, nat)>)
    requires start <= |lines|
    ensures r.Err? ==> ParseHunks(lines[start..], []) == Err(r.error)
    ensures r.Ok? ==>
              start <= r.value.1 <= |lines| && ParseHunks(lines[start..], []) == Ok((r.value.0, lines[r.value.1..]))
  {
    var hunks: seq<Hunk> := [];
    var i := start;
    while i < |lines| && "@@ " <= lines[i]
      invariant start <= i <= |lines|
      invariant ParseHunks(lines[i..], hunks) == ParseHunks(lines[start..], [])
    {
      var h := ReadHunk(lines, i);
      if h.Err? {
        return Err(h.error);
      }
      hunks := hunks + [h.value.0];
      i := h.value.1;
    }
    return Ok((hunks, i));
  }

  /** parseSection. */
  method ReadSection(lines: seq<string>, start: nat) returns (r: Result<(FileDiff, nat)>)
    requires start < |lines| && "--- " <= lines[start]
    ensures r.Err? ==> ParseSection(lines[start..]) == Err(r.error)
    ensures r.Ok? ==>
              start < r.value.1 <= |lines| && ParseSection(lines[start..]) == Ok((r.value.0, lines[r.value.1..]))
  {
    hide DiffPath, ParseHunks;
    if start + 1 >= |lines| || !("+++ " <= lines[start + 1]) {
      return Err(NoPlusLine);
    }
    var oldPath := DiffPath(lines[start][4..], "a/");
    if oldPath.Err? {
      return Err(oldPath.error);
    }
    var newPath := DiffPath(lines[start + 1][4..], "b/");
    if newPath.Err? {
      return Err(newPath.error);
    }
    if oldPath.value == "" && newPath.value == "" {
      return Err(BothNull);
    }
    if oldPath.value != "" && newPath.value != "" && oldPath.value != newPath.value {
      return Err(Renamed);
    }
    assert lines[start..][2..] == lines[start + 2..];
    var hunks := ReadHunks(lines, start + 2);
    if hunks.Err? {
      return Err(hunks.error);
    }
    if |hunks.value.0| == 0 {
      return Err(NoHunks);
    }
    return Ok((FileDiff(oldPath.value, newPath.value, hunks.value.0), hunks.value.1));
  }

  /** splitDiff. */
  method ReadDiff(diff: string) returns (r: Result<seq<FileDiff>>)
    ensures r == SplitDiff(LinesOf(diff), false, [])
  {
    var lines := LinesOf(diff);
    var sections: seq<FileDiff> := [];
    var inGitHeader := false;
    var i := 0;
    assert lines[0..] == lines;
    while i < |lines|
      invariant 0 <= i <= |lines|
      invariant SplitDiff(lines[i..], inGitHeader, sections) == SplitDiff(lines, false, [])
    {
      assert lines[i..][1..] == lines[i + 1..];
      if "diff --git " <= lines[i] {
        if inGitHeader {
          return Err(NoFileLines);
        }
        inGitHeader := true;
        i := i + 1;
      } else if inGitHeader && UnsupportedHeader(lines[i]) {
        return Err(Unsupported);
      } else if inGitHeader && ExtendedHeader(lines[i]) {
        i := i + 1;
      } else if "--- " <= lines[i] {
        var s := ReadSection(lines, i);
        if s.Err? {
          return Err(s.error);
        }
        sections := sections + [s.value.0];
        inGitHeader := false;
        i := s.value.1;
      } else if lines[i] == "" && !inGitHeader {
        i := i + 1;
      } else {
        return Err(Unexpected);
      }
    }
    if inGitHeader {
      return Err(NoFileLines);
    }
    return Ok(sections);
  }
}
