/** Models ParseDiff of eval/golden/diff.go, and states what every diff it accepts satisfies. */
module GoldenDiff {
  import opened DiffParser
  import opened Optional
  import opened DiffReconstruct
  import opened DiffPatch
  import opened DiffMarks

  /** One file's contents on both sides; None where it is absent. */
  datatype FileState = FileState(path: string, before: Option<string>, after: Option<string>)

  /** The two workspace trees. */
  datatype Files = Files(before: map<string, string>, after: map<string, string>)

  function StateOf(s: FileDiff, w: Work): FileState {
    FileState(s.Path(), if s.oldPath != "" then Some(TextOf(w.was)) else None,
              if s.newPath != "" then Some(TextOf(w.now)) else None)
  }

  /** The sections' files in order; each reconstruction starts from what the one before left. */
  function FilesOf(sections: seq<FileDiff>, left: int, seen: set<string>): (r: Result<seq<FileState>>)
    decreases |sections|
  {
    if sections == [] then Ok([])
    else if sections[0].Path() in seen then Err(DuplicateFile)
    else
      var w :- Reconstruct(sections[0], left);
      var rest :- FilesOf(sections[1..], w.left, seen + {sections[0].Path()});
      Ok([StateOf(sections[0], w)] + rest)
  }

  predicate Changes(files: seq<FileState>) { exists f | f in files :: f.before != f.after }

  function Accepted(diff: string): (r: Result<seq<FileState>>) {
    var sections :- SplitDiff(LinesOf(diff), false, []);
    if sections == [] then Err(NoSections)
    else
      var files :- FilesOf(sections, MAX_FIXTURE_BYTES, {});
      if Changes(files) then Ok(files) else Err(NothingChanged)
  }

  function Trees(files: seq<FileState>): (r: Files) {
    if files == [] then Files(map[], map[])
    else
      var trees, f := Trees(files[..|files| - 1]), files[|files| - 1];
      Files(if f.before.Some? then trees.before[f.path := f.before.value] else trees.before,
            if f.after.Some? then trees.after[f.path := f.after.value] else trees.after)
  }

  method ParseDiff(diff: string) returns (r: Result<Files>)
    ensures Accepted(diff).Err? ==> r == Err(Accepted(diff).error)
    ensures Accepted(diff).Ok? ==> r == Ok(Trees(Accepted(diff).value))
  {
    var sections := ReadDiff(diff);
    if sections.Err? {
      return Err(sections.error);
    }
    if |sections.value| == 0 {
      return Err(NoSections);
    }
    r := RebuildAll(sections.value);
  }

  /** The loop of ParseDiff over the sections. */
  method RebuildAll(sections: seq<FileDiff>) returns (r: Result<Files>)
    ensures var spec := FilesOf(sections, MAX_FIXTURE_BYTES, {});
            r == if spec.Err? then Err(spec.error) else if Changes(spec.value) then Ok(Trees(spec.value))
            else Err(NothingChanged)
  {
    hide Reconstruct;
    var files := Files(map[], map[]);
    var seen: set<string> := {};
    var changed := false;
    var budget := new Budget(MAX_FIXTURE_BYTES);
    ghost var goal := FilesOf(sections, MAX_FIXTURE_BYTES, {});
    ghost var got: seq<FileState> := [];
    assert sections[0..] == sections && (goal.Ok? ==> [] + goal.value == goal.value);
    for i := 0 to |sections|
      invariant files == Trees(got) && (changed <==> Changes(got))
      invariant Prepend(got, FilesOf(sections[i..], budget.left, seen)) == goal
    {
      assert sections[i..][1..] == sections[i + 1..];
      var s := sections[i];
      var p := if s.newPath != "" then s.newPath else s.oldPath;
      if p in seen {
        return Err(DuplicateFile);
      }
      ghost var spec := Reconstruct(s, budget.left);
      ghost var seenBefore := seen;
      seen := seen + {p};
      var texts := Rebuild(s, budget);
      if texts.Err? {
        return Err(texts.error);
      }
      var (before, after) := texts.value;
      ghost var state := StateOf(s, spec.value);
      PrependOne(got, state, FilesOf(sections[i + 1..], budget.left, seen));
      TreesOfOneMore(got, state);
      if before.Some? {
        files := files.(before := files.before[p := before.value]);
      }
      if after.Some? {
        files := files.(after := files.after[p := after.value]);
      }
      if before.Some? != after.Some? || (before.Some? && before.value != after.value) {
        changed := true;
      }
      got := got + [state];
    }
    assert sections[|sections|..] == [];
    assert got + [] == got;
    if !changed {
      return Err(NothingChanged);
    }
    return Ok(files);
  }

  function Prepend(got: seq<FileState>, rest: Result<seq<FileState>>): Result<seq<FileState>> {
    if rest.Ok? then Ok(got + rest.value) else rest
  }

  lemma PrependOne(got: seq<FileState>, f: FileState, rest: Result<seq<FileState>>)
    ensures Prepend(got, Prepend([f], rest)) == Prepend(got + [f], rest)
  {
    if rest.Ok? {
      assert got + ([f] + rest.value) == got + [f] + rest.value;
    }
  }

  lemma TreesOfOneMore(got: seq<FileState>, f: FileState)
    ensures var trees := Trees(got);
            Trees(got + [f]) == Files(if f.before.Some? then trees.before[f.path := f.before.value] else trees.before,
                                      if f.after.Some? then trees.after[f.path := f.after.value] else trees.after)
    ensures Changes(got + [f]) <==> Changes(got) || f.before != f.after
  {
    assert (got + [f])[..|got|] == got;
    if Changes(got) {
      var g :| g in got && g.before != g.after;
      assert g in got + [f];
    }
    if f.before != f.after {
      assert f in got + [f];
    }
  }

  // ---- What an accepted diff satisfies ----

  function Length(text: Option<string>): nat { if text.Some? then |text.value| else 0 }

  function Bytes(files: seq<FileState>): (n: nat) {
    if files == [] then 0 else Length(files[0].before) + Length(files[0].after) + Bytes(files[1..])
  }

  /** f is the state of s under sides that its hunks patch into each other and that end as its markers say. */
  ghost predicate PatchPair(s: FileDiff, f: FileState, was: Side, now: Side) {
    && f == StateOf(s, Work(was, now, 0)) && CleanWork(Work(was, now, 0))
    && Patches(was.lines, now.lines, s.hunks)
    && EndsAsMarked(was, s.hunks, true) && EndsAsMarked(now, s.hunks, false)
  }

  ghost predicate Faithful(s: FileDiff, f: FileState) {
    exists was, now :: PatchPair(s, f, was, now)
  }

  lemma {:induction false} FilesAreFaithful(sections: seq<FileDiff>, left: nat, seen: set<string>)
    requires FilesOf(sections, left, seen).Ok? && forall s | s in sections :: CleanSection(s)
    ensures var files := FilesOf(sections, left, seen).value;
            && |files| == |sections|
            && (forall i :: 0 <= i < |files| ==> files[i].path == sections[i].Path() && Faithful(sections[i], files[i]))
            && (forall i :: 0 <= i < |files| ==> files[i].path !in seen)
            && (forall i, j :: 0 <= i < j < |files| ==> files[i].path != files[j].path)
            && Bytes(files) <= left
    decreases |sections|
  {
    hide Reconstruct, Faithful, TextOf, CleanSection;
    if sections != [] {
      var s, w := sections[0], Reconstruct(sections[0], left).value;
      OneFileIsFaithful(s, left);
      FilesAreFaithful(sections[1..], w.left, seen + {s.Path()});
    }
  }

  lemma OneFileIsFaithful(s: FileDiff, left: nat)
    requires Reconstruct(s, left).Ok? && CleanSection(s)
    ensures var w := Reconstruct(s, left).value;
            && Faithful(s, StateOf(s, w)) && 0 <= w.left
            && w.left + Length(StateOf(s, w).before) + Length(StateOf(s, w).after) <= left
  {
    hide Reconstruct;
    hide TextOf;
    hide Patches, EndsAsMarked, CleanSection;
    var w := Reconstruct(s, left).value;
    ReconstructionIsPatch(s, left);
    ReconstructionIsPaid(s, left);
    ReconstructionIsClean(s, left);
    ReconstructionEndsAsMarked(s, left, true);
    ReconstructionEndsAsMarked(s, left, false);
    assert PatchPair(s, StateOf(s, w), w.was, w.now);
  }

  /**
   Every accepted diff names each file once; each file's two texts are patched into each other by
   its hunks at the lines their headers count, and lack a final newline exactly where a marker says
   so; and all texts together fit the budget.
   */
  lemma AcceptedDiff(diff: string)
    requires Accepted(diff).Ok?
    ensures var sections, files := SplitDiff(LinesOf(diff), false, []).value, Accepted(diff).value;
            && |files| == |sections| > 0
            && (forall i :: 0 <= i < |files| ==> files[i].path == sections[i].Path() && Faithful(sections[i], files[i]))
            && (forall s | s in sections :: SectionCounted(s))
            && (forall i, j :: 0 <= i < j < |files| ==> files[i].path != files[j].path)
            && Bytes(files) <= MAX_FIXTURE_BYTES
  {
    hide SplitDiff;
    hide CleanSection;
    hide SectionCounted;
    hide Faithful;
    hide Bytes;
    var sections := SplitDiff(LinesOf(diff), false, []).value;
    LinesAreClean(diff);
    SectionsAreClean(LinesOf(diff), false, []);
    SectionsAreCounted(LinesOf(diff), false, []);
    FilesAreFaithful(sections, MAX_FIXTURE_BYTES, {});
  }
}
