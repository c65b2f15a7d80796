/** Exactly which diffs ParseDiff of eval/golden/diff.go accepts, and what it makes of them. */
module GoldenAcceptance {
  import opened DiffParser
  import opened DiffPrinter
  import opened DiffReconstruct
  import opened DiffAcceptance
  import opened DiffMarks
  import opened GoldenDiff
  import opened Optional

  function CostOfAll(sections: seq<FileDiff>): int {
    if sections == [] then 0 else Cost(sections[0].hunks) + CostOfAll(sections[1..])
  }

  predicate DistinctPaths(sections: seq<FileDiff>) {
    forall i, j | 0 <= i < j < |sections| :: sections[i].Path() != sections[j].Path()
  }

  /** The file is created, deleted, or its two texts are not the same. */
  ghost predicate Differs(s: FileDiff) {
    || (s.oldPath == "") != (s.newPath == "")
    || (s.oldPath != "" && TextOf(SideBuilt(s.hunks, true)) != TextOf(SideBuilt(s.hunks, false)))
  }

  /** One section a file, each sound, all together within the size limit, and some file changed. */
  ghost predicate Acceptable(sections: seq<FileDiff>) {
    && DistinctPaths(sections) && (forall s | s in sections :: Sound(s)) && CostOfAll(sections) <= 8 * 1024 * 1024
    && exists s | s in sections :: Differs(s)
  }

  /** The file a section describes. */
  ghost function FileOf(s: FileDiff): FileState { StateOf(s, WorkBuilt(s.hunks, 0)) }

  ghost predicate AreFilesOf(files: seq<FileState>, sections: seq<FileDiff>) {
    |files| == |sections| && forall i | 0 <= i < |files| :: files[i] == FileOf(sections[i])
  }

  lemma {:induction false} CostIsNatural(sections: seq<FileDiff>)
    requires forall s | s in sections :: Sound(s)
    ensures CostOfAll(sections) >= 0
  {
    if sections != [] {
      assert sections[0] in sections;
      BuiltLength(sections[0].hunks, true);
      assert forall s | s in sections[1..] :: s in sections;
      hide Cost, LinesUp;
      CostIsNatural(sections[1..]);
    }
  }

  /** The sections can be reconstructed one after the other from this budget, as files not yet seen. */
  ghost predicate Fit(sections: seq<FileDiff>, left: int, seen: set<string>) {
    DistinctPaths(sections) && AllNew(sections, seen) && CostOfAll(sections) <= left
  }

  ghost predicate AllNew(sections: seq<FileDiff>, seen: set<string>) {
    forall s | s in sections :: Sound(s) && s.Path() !in seen
  }

  lemma NewFirst(sections: seq<FileDiff>, seen: set<string>)
    requires sections != []
    ensures var s, rest := sections[0], sections[1..];
            AllNew(sections, seen) && (forall t | t in rest :: t.Path() != s.Path()) <==>
              Sound(s) && s.Path() !in seen && AllNew(rest, seen + {s.Path()})
  {
    hide Sound, FileDiff.Path;
    assert forall t :: t in sections <==> t == sections[0] || t in sections[1..];
  }

  lemma {:induction false} FitFirst(sections: seq<FileDiff>, left: nat, seen: set<string>)
    requires sections != []
    ensures var s := sections[0];
            Fit(sections, left, seen) <==>
              && s.Path() !in seen && Sound(s) && Cost(s.hunks) <= left
              && Fit(sections[1..], left - Cost(s.hunks), seen + {s.Path()})
  {
    hide *;
    FitIs(sections, left, seen);
    FitIs(sections[1..], left - Cost(sections[0].hunks), seen + {sections[0].Path()});
    DistinctFirst(sections);
    NewFirst(sections, seen);
    CostFirst(sections);
    if AllNew(sections[1..], seen + {sections[0].Path()}) {
      NewIsNatural(sections[1..], seen + {sections[0].Path()});
    }
  }

  lemma FitIs(sections: seq<FileDiff>, left: int, seen: set<string>)
    ensures Fit(sections, left, seen) <==>
              DistinctPaths(sections) && AllNew(sections, seen) && CostOfAll(sections) <= left
  {}

  lemma CostFirst(sections: seq<FileDiff>)
    requires sections != []
    ensures CostOfAll(sections) == Cost(sections[0].hunks) + CostOfAll(sections[1..])
  {}

  lemma NewIsNatural(sections: seq<FileDiff>, seen: set<string>)
    requires AllNew(sections, seen)
    ensures CostOfAll(sections) >= 0
  {
    hide Sound;
    CostIsNatural(sections);
  }

  lemma {:induction false} FilesOfIff(sections: seq<FileDiff>, left: nat, seen: set<string>)
    ensures FilesOf(sections, left, seen).Ok? <==> Fit(sections, left, seen)
    ensures FilesOf(sections, left, seen).Ok? ==> AreFilesOf(FilesOf(sections, left, seen).value, sections)
    decreases |sections|
  {
    hide *;
    if sections == [] {
      NoFiles(left, seen);
    } else {
      var s := sections[0];
      ReconstructIff(s, left);
      FitFirst(sections, left, seen);
      FilesStep(sections, left, seen);
      if s.Path() !in seen && Reconstruct(s, left).Ok? {
        LeftIs(s, left);
        FilesOfIff(sections[1..], left - Cost(s.hunks), seen + {s.Path()});
        StateIgnoresLeft(s, left);
        if FilesOf(sections, left, seen).Ok? {
          FilesCons(FileOf(s), FilesOf(sections[1..], left - Cost(s.hunks), seen + {s.Path()}).value, sections);
        }
      }
    }
  }

  lemma NoFiles(left: nat, seen: set<string>)
    ensures FilesOf([], left, seen) == Ok([]) && Fit([], left, seen) && AreFilesOf([], [])
  {}

  lemma FilesStep(sections: seq<FileDiff>, left: nat, seen: set<string>)
    requires sections != []
    ensures var s := sections[0];
            var r := FilesOf(sections, left, seen);
            if s.Path() in seen || Reconstruct(s, left).Err? then r.Err?
            else
              var rest := FilesOf(sections[1..], Reconstruct(s, left).value.left, seen + {s.Path()});
              (r.Ok? <==> rest.Ok?) && (r.Ok? ==> r.value == [StateOf(s, Reconstruct(s, left).value)] + rest.value)
  {
    hide Reconstruct, TextOf;
  }

  lemma FilesCons(f: FileState, files: seq<FileState>, sections: seq<FileDiff>)
    requires sections != [] && f == FileOf(sections[0]) && AreFilesOf(files, sections[1..])
    ensures AreFilesOf([f] + files, sections)
  {
    hide TextOf;
    forall i | 0 <= i < |sections| ensures ([f] + files)[i] == FileOf(sections[i]) {
      if i > 0 {
        assert sections[i] == sections[1..][i - 1];
      }
    }
  }

  lemma LeftIs(s: FileDiff, left: nat)
    requires Reconstruct(s, left).Ok?
    ensures Cost(s.hunks) <= left && Reconstruct(s, left).value.left == left - Cost(s.hunks)
  {
    ReconstructIff(s, left);
  }

  lemma StateIgnoresLeft(s: FileDiff, left: nat)
    ensures StateOf(s, WorkBuilt(s.hunks, left)) == FileOf(s)
  {}

  lemma DistinctFirst(sections: seq<FileDiff>)
    requires sections != []
    ensures DistinctPaths(sections) <==>
              DistinctPaths(sections[1..]) && forall t | t in sections[1..] :: t.Path() != sections[0].Path()
  {
    var rest := sections[1..];
    if DistinctPaths(sections) {
      forall t | t in rest ensures t.Path() != sections[0].Path() {
        var i :| 0 <= i < |rest| && rest[i] == t;
        assert sections[i + 1] == t;
      }
      forall i, j | 0 <= i < j < |rest| ensures rest[i].Path() != rest[j].Path() {
        assert sections[i + 1] == rest[i] && sections[j + 1] == rest[j];
      }
    }
    if DistinctPaths(rest) && forall t | t in rest :: t.Path() != sections[0].Path() {
      forall i, j | 0 <= i < j < |sections| ensures sections[i].Path() != sections[j].Path() {
        assert sections[j] == rest[j - 1] && sections[j] in rest;
        assert i > 0 ==> sections[i] == rest[i - 1];
      }
    }
  }

  lemma DiffersIff(s: FileDiff)
    ensures FileOf(s).before != FileOf(s).after <==> Differs(s)
  {
    hide TextOf, Marked, Built;
  }

  lemma ChangesIff(sections: seq<FileDiff>, files: seq<FileState>)
    requires AreFilesOf(files, sections)
    ensures Changes(files) <==> exists s | s in sections :: Differs(s)
  {
    hide FileOf, Differs;
    forall s ensures FileOf(s).before != FileOf(s).after <==> Differs(s) {
      DiffersIff(s);
    }
    if Changes(files) {
      var f :| f in files && f.before != f.after;
      var i :| 0 <= i < |files| && files[i] == f;
      assert Differs(sections[i]);
    }
    if exists s | s in sections :: Differs(s) {
      var s :| s in sections && Differs(s);
      var i :| 0 <= i < |sections| && sections[i] == s;
      assert files[i] in files && files[i].before != files[i].after;
    }
  }

  /** A diff is accepted exactly when it splits into sections that are acceptable together. */
  lemma {:induction false} AcceptedIff(diff: string)
    ensures var split := SplitDiff(LinesOf(diff), false, []);
            && (Accepted(diff).Ok? <==> split.Ok? && Acceptable(split.value))
            && (Accepted(diff).Ok? ==> AreFilesOf(Accepted(diff).value, split.value))
  {
    var split := SplitDiff(LinesOf(diff), false, []);
    hide SplitDiff, FilesOf, Sound, DistinctPaths, CostOfAll, Changes, Differs, AreFilesOf, TextOf;
    if split.Ok? {
      FilesOfIff(split.value, MAX_FIXTURE_BYTES, {});
      if FilesOf(split.value, MAX_FIXTURE_BYTES, {}).Ok? {
        ChangesIff(split.value, FilesOf(split.value, MAX_FIXTURE_BYTES, {}).value);
      }
    }
  }

  /** Any acceptable list of well-formed sections, printed, is accepted, and gives those files. */
  lemma {:induction false} PrintedIsAccepted(sections: seq<FileDiff>)
    requires forall s | s in sections :: LegalSection(s)
    ensures Accepted(Print(sections)).Ok? <==> Acceptable(sections)
    ensures Acceptable(sections) ==> AreFilesOf(Accepted(Print(sections)).value, sections)
  {
    hide *;
    PrintThenParse(sections);
    AcceptedIff(Print(sections));
  }
}
