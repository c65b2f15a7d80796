/**
 Models eval/lakehouse: the file-backed trace store (filestore.go) and its append-only
 manifest (manifest.go), which lets a query skip loading files its filter rejects. Times are
 integers; a stored document reads back as it was written.
 */
module Lakehouse {
  import opened Optional

  // ---- Documents, manifest entries and filters ----

  datatype Kind = TraceKind | RecordingKind

  datatype Key = Key(kind: Kind, id: string)

  datatype RunTrace = RunTrace(id: string, startedAt: int, outcome: string, mode: string, model: string,
      provider: string)

  /** mode, model and provider are rec.Config's own; final is rec.FinalOutcome. */
  datatype RunRecording = RunRecording(runId: string, mode: string, model: string, provider: string, final: RunTrace)

  datatype Document = Trace(trace: RunTrace) | Recording(recording: RunRecording) {
    function Name(): Key {
      match this
      case Trace(t) => Key(TraceKind, t.id)
      case Recording(r) => Key(RecordingKind, r.runId)
    }

    /** The trace a query filters and sorts by. */
    function Final(): RunTrace {
      match this
      case Trace(t) => t
      case Recording(r) => r.final
    }
  }

  datatype Entry = Entry(key: Key, outcome: string, mode: string, model: string, provider: string)

  /** manifestEntryForTrace and manifestEntryForRecording, without the unread start time. */
  function EntryFor(d: Document): Entry {
    match d
    case Trace(t) => Entry(d.Name(), t.outcome, t.mode, t.model, t.provider)
    case Recording(r) => Entry(d.Name(), r.final.outcome, r.mode, r.model, r.provider)
  }

  /** An empty string and a None leave that field unfiltered; a limit of at most zero is none. */
  datatype Filter = Filter(after: Option<int>, before: Option<int>, outcome: string, mode: string,
                           model: string, provider: string, limit: int)

  predicate MatchesTraceFilter(t: RunTrace, f: Filter) {
    && (f.after.Some? ==> t.startedAt > f.after.value)
    && (f.before.Some? ==> t.startedAt < f.before.value)
    && (f.outcome == "" || t.outcome == f.outcome)
    && (f.mode == "" || t.mode == f.mode)
    && (f.model == "" || t.model == f.model)
    && (f.provider == "" || t.provider == f.provider)
  }

  predicate MatchesManifestEntry(e: Entry, f: Filter) {
    && (f.outcome == "" || e.outcome == f.outcome)
    && (f.mode == "" || e.mode == f.mode)
    && (f.model == "" || e.model == f.model)
    && (f.provider == "" || e.provider == f.provider)
  }

  // ---- When an entry may stand for a file ----

  /** Each filterable field of t is empty or repeated by e. */
  predicate Covers(e: Entry, t: RunTrace) {
    && (t.outcome == "" || e.outcome == t.outcome)
    && (t.mode == "" || e.mode == t.mode)
    && (t.model == "" || e.model == t.model)
    && (t.provider == "" || e.provider == t.provider)
  }

  const NO_FILTER := Filter(None, None, "", "", "", "", 0)

  /** Skipping files by this entry is safe for every filter exactly when it covers the file. */
  lemma SafeSkipIffCovers(e: Entry, t: RunTrace)
    ensures (forall f :: MatchesTraceFilter(t, f) ==> MatchesManifestEntry(e, f)) <==> Covers(e, t)
  {
    if forall f :: MatchesTraceFilter(t, f) ==> MatchesManifestEntry(e, f) {
      assert MatchesTraceFilter(t, NO_FILTER.(outcome := t.outcome));
      assert MatchesTraceFilter(t, NO_FILTER.(mode := t.mode));
      assert MatchesTraceFilter(t, NO_FILTER.(model := t.model));
      assert MatchesTraceFilter(t, NO_FILTER.(provider := t.provider));
    }
  }

  /** What a caller can check of a document before storing it. */
  predicate ConfigsAgree(d: Document) {
    d.Recording? ==>
      var r := d.recording;
      && (r.final.mode == "" || r.mode == r.final.mode)
      && (r.final.model == "" || r.model == r.final.model)
      && (r.final.provider == "" || r.provider == r.final.provider)
  }

  lemma OwnEntryCovers(d: Document)
    ensures Covers(EntryFor(d), d.Final()) <==> ConfigsAgree(d)
  {}

  // ---- The manifest file ----

  datatype Body = Holds(entry: Entry) | Blank | Garbled

  /** A line, and whether its newline has been written. */
  datatype Line = Line(body: Body, ended: bool)

  /** Text written after an unended line joins it, which leaves nothing that parses. */
  function Put(lines: seq<Line>, body: Body, ended: bool): (r: seq<Line>) {
    if lines != [] && !lines[|lines| - 1].ended then lines[..|lines| - 1] + [Line(Garbled, ended)]
    else lines + [Line(body, ended)]
  }

  /** How an append ends: complete, without effect, or cut short after a part that parses or not. */
  datatype AppendEnd = Written | Lost | Torn(parses: bool)

  function Appended(manifest: Option<seq<Line>>, e: Entry, how: AppendEnd): (r: Option<seq<Line>>) {
    var lines := if manifest.Some? then manifest.value else [];
    match how
    case Written => Some(Put(lines, Holds(e), true))
    case Lost => manifest
    case Torn(parses) => Some(Put(lines, if parses then Holds(e) else Garbled, false))
  }

  /** One more line read into the index so far; a garbled one invalidates the whole manifest. */
  function Absorb(index: Option<map<Key, Entry>>, body: Body): (r: Option<map<Key, Entry>>) {
    if index.None? || body.Garbled? then None
    else if body.Holds? && body.entry.key.id != "" then Some(index.value[body.entry.key := body.entry])
    else index
  }

  /** The last entry for each key. */
  function Index(lines: seq<Line>): (r: Option<map<Key, Entry>>) {
    if lines == [] then Some(map[]) else Absorb(Index(lines[..|lines| - 1]), lines[|lines| - 1].body)
  }

  lemma PutIndex(lines: seq<Line>, body: Body, ended: bool)
    ensures Index(Put(lines, body, ended)) ==
            if lines != [] && !lines[|lines| - 1].ended then None else Absorb(Index(lines), body)
  {
    var after := Put(lines, body, ended);
    if lines != [] && !lines[|lines| - 1].ended {
      assert after[|after| - 1].body == Garbled;
    } else {
      assert after[..|after| - 1] == lines;
    }
  }

  function IndexOf(manifest: Option<seq<Line>>): (r: Option<map<Key, Entry>>) {
    if manifest.None? then None else Index(manifest.value)
  }

  // ---- Queries over values ----

  /** Directory names a query and a rebuild pass over: leftovers of a crashed writer. */
  predicate Temporary(name: string) { ".tmp" <= name }

  /** The file of this name, if a scan with filter f selects it. */
  function Selected(files: map<Key, Document>, key: Key, f: Filter): (r: seq<Document>) {
    if !Temporary(key.id) && key in files && MatchesTraceFilter(files[key].Final(), f) then [files[key]] else []
  }

  /** A plain scan of the listed files. */
  function ScanOf(files: map<Key, Document>, kind: Kind, names: seq<string>, f: Filter): (r: seq<Document>) {
    if names == [] then []
    else ScanOf(files, kind, names[..|names| - 1], f) + Selected(files, Key(kind, names[|names| - 1]), f)
  }

  predicate Skips(index: Option<map<Key, Entry>>, key: Key, f: Filter) {
    index.Some? && key in index.value && !MatchesManifestEntry(index.value[key], f)
  }

  /** The same scan, passing over what the index rejects. */
  function IndexedScan(files: map<Key, Document>, index: Option<map<Key, Entry>>, kind: Kind, names: seq<string>,
                       f: Filter): (r: seq<Document>)
  {
    if names == [] then []
    else
      var key := Key(kind, names[|names| - 1]);
      IndexedScan(files, index, kind, names[..|names| - 1], f)
      + (if Skips(index, key, f) then [] else Selected(files, key, f))
  }

  /** Every entry of the index for a listed file covers it. */
  ghost predicate Coherent(files: map<Key, Document>, index: Option<map<Key, Entry>>, kind: Kind, names: seq<string>) {
    index.Some? ==>
      forall name | name in names && !Temporary(name) && Key(kind, name) in files && Key(kind, name) in index.value ::
        Covers(index.value[Key(kind, name)], files[Key(kind, name)].Final())
  }

  lemma {:induction false} CoherentScanIsExact(files: map<Key, Document>, index: Option<map<Key, Entry>>, kind: Kind,
                                               names: seq<string>, f: Filter)
    requires Coherent(files, index, kind, names)
    ensures IndexedScan(files, index, kind, names, f) == ScanOf(files, kind, names, f)
  {
    if names != [] {
      var front, key := names[..|names| - 1], Key(kind, names[|names| - 1]);
      assert forall name | name in front :: name in names;
      CoherentScanIsExact(files, index, kind, front, f);
      if Skips(index, key, f) && key in files && !Temporary(key.id) {
        SafeSkipIffCovers(index.value[key], files[key].Final());
      }
    }
  }

  lemma {:induction false} IndexedScanIsShorter(files: map<Key, Document>, index: Option<map<Key, Entry>>, kind: Kind,
                                                names: seq<string>, f: Filter)
    ensures |IndexedScan(files, index, kind, names, f)| <= |ScanOf(files, kind, names, f)|
  {
    if names != [] {
      IndexedScanIsShorter(files, index, kind, names[..|names| - 1], f);
    }
  }

  lemma {:induction false} SkippedFileIsLost(files: map<Key, Document>, index: Option<map<Key, Entry>>, kind: Kind,
                                             names: seq<string>, f: Filter, name: string)
    requires name in names && Skips(index, Key(kind, name), f) && Selected(files, Key(kind, name), f) != []
    ensures |IndexedScan(files, index, kind, names, f)| < |ScanOf(files, kind, names, f)|
  {
    var front := names[..|names| - 1];
    if name == names[|names| - 1] {
      IndexedScanIsShorter(files, index, kind, front, f);
    } else {
      assert name in front;
      SkippedFileIsLost(files, index, kind, front, f, name);
    }
  }

  /**
   The exact condition: an indexed query answers every filter as a plain scan does if and only
   if each indexed entry covers its file.
   */
  lemma ExactIffCoherent(files: map<Key, Document>, index: Option<map<Key, Entry>>, kind: Kind, names: seq<string>)
    ensures (forall f :: IndexedScan(files, index, kind, names, f) == ScanOf(files, kind, names, f))
            <==> Coherent(files, index, kind, names)
  {
    if Coherent(files, index, kind, names) {
      forall f ensures IndexedScan(files, index, kind, names, f) == ScanOf(files, kind, names, f) {
        CoherentScanIsExact(files, index, kind, names, f);
      }
    } else {
      var name :| name in names && !Temporary(name) && Key(kind, name) in files && Key(kind, name) in index.value
                  && !Covers(index.value[Key(kind, name)], files[Key(kind, name)].Final());
      SafeSkipIffCovers(index.value[Key(kind, name)], files[Key(kind, name)].Final());
      var f :| MatchesTraceFilter(files[Key(kind, name)].Final(), f)
          && !MatchesManifestEntry(index.value[Key(kind, name)], f);
      SkippedFileIsLost(files, index, kind, names, f, name);
    }
  }

  // ---- What a rebuild writes ----

  /** The lines a scan of one directory appends to the new manifest. */
  function Rebuilt(files: map<Key, Document>, kind: Kind, names: seq<string>): (lines: seq<Line>) {
    if names == [] then []
    else
      var key := Key(kind, names[|names| - 1]);
      Rebuilt(files, kind, names[..|names| - 1])
      + (if Temporary(key.id) || key !in files then [] else [Line(Holds(EntryFor(files[key])), true)])
  }

  /** e is the entry of the document now stored under its key. */
  predicate TrueEntry(files: map<Key, Document>, e: Entry) {
    e.key in files && e == EntryFor(files[e.key])
  }

  ghost predicate TrueLines(files: map<Key, Document>, lines: seq<Line>) {
    forall l | l in lines && l.body.Holds? :: TrueEntry(files, l.body.entry)
  }

  /** Every document is stored under its own name. */
  ghost predicate Filed(files: map<Key, Document>) {
    forall k | k in files :: files[k].Name() == k
  }

  ghost predicate TrueIndex(files: map<Key, Document>, index: Option<map<Key, Entry>>) {
    index.Some? ==> forall k | k in index.value :: index.value[k].key == k && TrueEntry(files, index.value[k])
  }

  lemma {:induction false} TrueLinesIndex(files: map<Key, Document>, lines: seq<Line>)
    requires TrueLines(files, lines)
    ensures TrueIndex(files, Index(lines))
  {
    if lines != [] {
      assert forall l | l in lines[..|lines| - 1] :: l in lines;
      TrueLinesIndex(files, lines[..|lines| - 1]);
      assert lines[|lines| - 1] in lines;
    }
  }

  lemma {:induction false} RebuiltIsTrue(files: map<Key, Document>, kind: Kind, names: seq<string>)
    requires Filed(files)
    ensures TrueLines(files, Rebuilt(files, kind, names))
  {
    if names != [] {
      RebuiltIsTrue(files, kind, names[..|names| - 1]);
    }
  }

  /** A rebuilt manifest has the entry of every listed document, so later queries can skip by it. */
  lemma {:induction false} RebuiltIsComplete(files: map<Key, Document>, kind: Kind, names: seq<string>, name: string)
    requires name in names && !(".tmp" <= name) && Key(kind, name) in files
    ensures Line(Holds(EntryFor(files[Key(kind, name)])), true) in Rebuilt(files, kind, names)
  {
    if name != names[|names| - 1] {
      RebuiltIsComplete(files, kind, names[..|names| - 1], name);
    }
  }

  /** A manifest of true, whole lines loads, and gives each listed key its document's entry. */
  lemma {:induction false} WholeLinesIndex(files: map<Key, Document>, lines: seq<Line>, key: Key)
    requires Filed(files) && TrueLines(files, lines) && forall l | l in lines :: l.body.Holds?
    ensures Index(lines).Some?
    ensures key.id != "" && key in files && Line(Holds(EntryFor(files[key])), true) in lines ==>
              key in Index(lines).value && Index(lines).value[key] == EntryFor(files[key])
  {
    if lines != [] {
      var front, last := lines[..|lines| - 1], lines[|lines| - 1];
      assert forall l | l in front :: l in lines;
      WholeLinesIndex(files, front, key);
      assert last in lines;
      if key in files && Line(Holds(EntryFor(files[key])), true) in lines && last.body.entry.key != key {
        assert Line(Holds(EntryFor(files[key])), true) in front;
      }
    }
  }

  /** After a rebuild the manifest loads, with the entry of every listed document. */
  lemma RebuildLoads(files: map<Key, Document>, traces: seq<string>, recordings: seq<string>, key: Key)
    requires Filed(files)
    ensures var index := Index(Rebuilt(files, TraceKind, traces) + Rebuilt(files, RecordingKind, recordings));
            && index.Some?
            && (key.id != "" && !(".tmp" <= key.id) && key in files
                && key.id in (if key.kind == TraceKind then traces else recordings) ==>
                  key in index.value && index.value[key] == EntryFor(files[key]))
  {
    var lines := Rebuilt(files, TraceKind, traces) + Rebuilt(files, RecordingKind, recordings);
    RebuiltIsTrue(files, TraceKind, traces);
    RebuiltIsTrue(files, RecordingKind, recordings);
    RebuiltIsWhole(files, TraceKind, traces);
    RebuiltIsWhole(files, RecordingKind, recordings);
    hide Rebuilt, Index, EntryFor;
    WholeLinesIndex(files, lines, key);
    if key in files && !(".tmp" <= key.id) && key.id in (if key.kind == TraceKind then traces else recordings) {
      RebuiltIsComplete(files, key.kind, if key.kind == TraceKind then traces else recordings, key.id);
      assert Key(key.kind, key.id) == key;
    }
  }

  lemma {:induction false} RebuiltIsWhole(files: map<Key, Document>, kind: Kind, names: seq<string>)
    ensures forall l | l in Rebuilt(files, kind, names) :: l.body.Holds?
  {
    if names != [] {
      RebuiltIsWhole(files, kind, names[..|names| - 1]);
    }
  }

  /** An index of true entries misleads no query over documents whose configs agree. */
  lemma TrueIndexIsCoherent(files: map<Key, Document>, index: Option<map<Key, Entry>>, kind: Kind, names: seq<string>)
    requires TrueIndex(files, index) && forall k | k in files :: ConfigsAgree(files[k])
    ensures Coherent(files, index, kind, names)
  {
    if index.Some? {
      forall name | name in names && Key(kind, name) in files && Key(kind, name) in index.value
        ensures Covers(index.value[Key(kind, name)], files[Key(kind, name)].Final())
      {
        OwnEntryCovers(files[Key(kind, name)]);
      }
    }
  }

  // ---- Result order ----

  ghost predicate Descending(s: seq<Document>) {
    forall i, j | 0 <= i < j < |s| :: s[i].Final().startedAt >= s[j].Final().startedAt
  }

  function Inserted(d: Document, s: seq<Document>): (r: seq<Document>) {
    if s == [] || d.Final().startedAt > s[0].Final().startedAt then [d] + s
    else [s[0]] + Inserted(d, s[1..])
  }

  lemma {:induction false} InsertedContents(d: Document, s: seq<Document>)
    ensures multiset(Inserted(d, s)) == multiset(s) + multiset{d}
  {
    hide Document.Final;
    if s != [] && d.Final().startedAt <= s[0].Final().startedAt {
      InsertedContents(d, s[1..]);
      assert s == [s[0]] + s[1..];
    }
  }

  lemma {:induction false} InsertedDescending(d: Document, s: seq<Document>)
    requires Descending(s)
    ensures Descending(Inserted(d, s))
  {
    hide Document.Final;
    if s != [] && d.Final().startedAt <= s[0].Final().startedAt {
      var rest := Inserted(d, s[1..]);
      InsertedDescending(d, s[1..]);
      InsertedContents(d, s[1..]);
      forall i | 0 <= i < |rest| ensures rest[i].Final().startedAt <= s[0].Final().startedAt {
        assert rest[i] in multiset(rest);
        assert rest[i] == d || rest[i] in s[1..];
      }
    }
  }

  /** Some order sort.Slice may leave equal start times in. */
  function Sorted(s: seq<Document>): (r: seq<Document>)
    ensures multiset(r) == multiset(s)
    ensures Descending(r)
  {
    if s == [] then []
    else
      InsertedContents(s[|s| - 1], Sorted(s[..|s| - 1]));
      InsertedDescending(s[|s| - 1], Sorted(s[..|s| - 1]));
      assert s == s[..|s| - 1] + [s[|s| - 1]];
      Inserted(s[|s| - 1], Sorted(s[..|s| - 1]))
  }

  /** The newest limit documents of found, all of them when limit is at most zero. */
  ghost predicate Newest(r: seq<Document>, found: seq<Document>, limit: int) {
    exists all :: multiset(all) == multiset(found) && Descending(all)
                  && r == if 0 < limit < |all| then all[..limit] else all
  }

  // ---- What a caller may rely on ----

  /** The run started inside the window and repeats each field that is asked for. */
  predicate Wanted(t: RunTrace, f: Filter) {
    && (f.after.None? || f.after.value < t.startedAt) && (f.before.None? || t.startedAt < f.before.value)
    && (f.outcome != "" ==> t.outcome == f.outcome) && (f.mode != "" ==> t.mode == f.mode)
    && (f.model != "" ==> t.model == f.model) && (f.provider != "" ==> t.provider == f.provider)
  }

  /** The listed documents that are wanted. */
  predicate Offered(files: map<Key, Document>, kind: Kind, names: seq<string>, f: Filter, d: Document) {
    exists name | name in names ::
      !(".tmp" <= name) && Key(kind, name) in files && files[Key(kind, name)] == d && Wanted(d.Final(), f)
  }

  lemma {:induction false} ScanMeaning(files: map<Key, Document>, kind: Kind, names: seq<string>, f: Filter,
      d: Document)
    ensures d in ScanOf(files, kind, names, f) <==> Offered(files, kind, names, f, d)
  {
    if names != [] {
      var front, name := names[..|names| - 1], names[|names| - 1];
      ScanMeaning(files, kind, front, f, d);
      assert forall n :: n in names <==> n in front || n == name;
    }
  }

  lemma {:induction false} IndexedScanIsPart(files: map<Key, Document>, index: Option<map<Key, Entry>>, kind: Kind,
                                             names: seq<string>, f: Filter, d: Document)
    requires d in IndexedScan(files, index, kind, names, f)
    ensures d in ScanOf(files, kind, names, f)
  {
    if names != [] && d in IndexedScan(files, index, kind, names[..|names| - 1], f) {
      IndexedScanIsPart(files, index, kind, names[..|names| - 1], f, d);
    }
  }

  /** r lists only members of found, newest first, at most limit of them, and leaves out only older ones. */
  ghost predicate TopOf(r: seq<Document>, found: seq<Document>, limit: int) {
    && (forall d | d in r :: d in found)
    && (forall i, j | 0 <= i < j < |r| :: r[j].Final().startedAt <= r[i].Final().startedAt)
    && (limit > 0 ==> |r| <= limit)
    && forall d | d in found ::
         d in r || (0 < limit == |r| && forall e | e in r :: d.Final().startedAt <= e.Final().startedAt)
  }

  lemma {:induction false} NewestIsTop(r: seq<Document>, found: seq<Document>, limit: int)
    requires Newest(r, found, limit)
    ensures TopOf(r, found, limit)
  {
    hide Document.Final;
    var all :|
      multiset(all) == multiset(found) && Descending(all) && r == if 0 < limit < |all| then all[..limit] else all;
    SameMembers(all, found);
    CutIsTop(all, r, limit);
    hide Descending;
  }

  lemma {:induction false} CutIsTop(all: seq<Document>, r: seq<Document>, limit: int)
    requires Descending(all) && r == if 0 < limit < |all| then all[..limit] else all
    ensures TopOf(r, all, limit)
  {
    hide Document.Final;
    PrefixIsTop(all, |r|);
    assert r == all[..|r|];
  }

  lemma SameMembers(a: seq<Document>, b: seq<Document>)
    requires multiset(a) == multiset(b)
    ensures forall d :: d in a <==> d in b
  {
    forall d ensures d in a <==> d in b {
      assert d in multiset(a) <==> d in multiset(b);
    }
  }

  lemma PrefixIsTop(all: seq<Document>, n: nat)
    requires Descending(all) && n <= |all|
    ensures forall d | d in all && d !in all[..n] ::
              n < |all| && forall e | e in all[..n] :: d.Final().startedAt <= e.Final().startedAt
  {
    hide Document.Final;
    assert forall i | 0 <= i < n :: all[i] in all[..n];
  }

  lemma AnswerIsOffered(files: map<Key, Document>, index: Option<map<Key, Entry>>, kind: Kind, names: seq<string>,
                        f: Filter, r: seq<Document>)
    requires Newest(r, IndexedScan(files, index, kind, names, f), f.limit)
    ensures forall d | d in r :: Offered(files, kind, names, f, d)
    ensures forall i, j | 0 <= i < j < |r| :: r[j].Final().startedAt <= r[i].Final().startedAt
    ensures f.limit > 0 ==> |r| <= f.limit
  {
    hide Newest, IndexedScan, ScanOf, Offered, Document.Final;
    NewestIsTop(r, IndexedScan(files, index, kind, names, f), f.limit);
    forall d | d in r ensures Offered(files, kind, names, f, d) {
      IndexedScanIsPart(files, index, kind, names, f, d);
      ScanMeaning(files, kind, names, f, d);
    }
  }

  lemma AnswerIsComplete(files: map<Key, Document>, kind: Kind, names: seq<string>, f: Filter, r: seq<Document>)
    requires Newest(r, ScanOf(files, kind, names, f), f.limit)
    ensures forall d | Offered(files, kind, names, f, d) ::
              d in r || (0 < f.limit == |r| && forall e | e in r :: d.Final().startedAt <= e.Final().startedAt)
  {
    hide Newest, ScanOf, Offered, Document.Final;
    NewestIsTop(r, ScanOf(files, kind, names, f), f.limit);
    forall d | Offered(files, kind, names, f, d)
      ensures d in r || (0 < f.limit == |r| && forall e | e in r :: d.Final().startedAt <= e.Final().startedAt)
    {
      ScanMeaning(files, kind, names, f, d);
    }
  }

  /** A later start time only removes documents, and those it removes are older than those it keeps. */
  lemma LaterStartKeepsNewer(files: map<Key, Document>, kind: Kind, names: seq<string>, f: Filter, a: int)
    requires f.after.Some? ==> f.after.value <= a
    ensures var was, now := ScanOf(files, kind, names, f), ScanOf(files, kind, names, f.(after := Some(a)));
            && (forall d :: d in now <==> d in was && a < d.Final().startedAt)
            && (forall d, e | d in was && d !in now && e in now :: d.Final().startedAt < e.Final().startedAt)
  {
    hide ScanOf, Document.Final;
    forall d ensures d in ScanOf(files, kind, names, f.(after := Some(a))) <==>
                       d in ScanOf(files, kind, names, f) && a < d.Final().startedAt {
      ScanMeaning(files, kind, names, f, d);
      ScanMeaning(files, kind, names, f.(after := Some(a)), d);
    }
  }

  /** An earlier end time only removes documents, and those it removes are newer than those it keeps. */
  lemma EarlierEndKeepsOlder(files: map<Key, Document>, kind: Kind, names: seq<string>, f: Filter, b: int)
    requires f.before.Some? ==> b <= f.before.value
    ensures var was, now := ScanOf(files, kind, names, f), ScanOf(files, kind, names, f.(before := Some(b)));
            && (forall d :: d in now <==> d in was && d.Final().startedAt < b)
            && (forall d, e | d in was && d !in now && e in now :: e.Final().startedAt < d.Final().startedAt)
  {
    hide ScanOf, Document.Final;
    forall d ensures d in ScanOf(files, kind, names, f.(before := Some(b))) <==>
                       d in ScanOf(files, kind, names, f) && d.Final().startedAt < b {
      ScanMeaning(files, kind, names, f, d);
      ScanMeaning(files, kind, names, f.(before := Some(b)), d);
    }
  }

  // ---- The store ----

  /** The index hides no stored document from any query. */
  ghost predicate Sound(files: map<Key, Document>, manifest: Option<seq<Line>>) {
    IndexOf(manifest).Some? ==>
      forall k | k in files && k in IndexOf(manifest).value :: Covers(IndexOf(manifest).value[k], files[k].Final())
  }

  lemma {:induction false} GarbledStays(lines: seq<Line>, i: nat)
    requires i <= |lines| && Index(lines[..i]).None?
    ensures Index(lines).None?
  {
    if i < |lines| {
      assert lines[..|lines| - 1][..i] == lines[..i];
      GarbledStays(lines[..|lines| - 1], i);
    } else {
      assert lines[..i] == lines;
    }
  }

  class FileStore {
    var files: map<Key, Document>
    var manifest: Option<seq<Line>>

    constructor ()
      ensures files == map[] && manifest == None
    {
      files, manifest := map[], None;
    }

    /** StoreTrace and StoreRecording; fileWritten and how are the file system's part. */
    method Store(d: Document, fileWritten: bool, how: AppendEnd) returns (ok: bool)
      modifies this
      ensures ok <==> d.Name().id != "" && fileWritten
      ensures !ok ==> files == old(files) && manifest == old(manifest)
      ensures ok ==> files == old(files)[d.Name() := d] && manifest == Appended(old(manifest), EntryFor(d), how)
    {
      if d.Name().id == "" {
        return false;
      }
      if !fileWritten {
        return false;
      }
      files := files[d.Name() := d];
      manifest := Appended(manifest, EntryFor(d), how);
      return true;
    }

    method LoadManifestIndex() returns (index: Option<map<Key, Entry>>)
      ensures index == IndexOf(manifest)
    {
      if manifest.None? {
        return None;
      }
      var lines := manifest.value;
      var found: map<Key, Entry> := map[];
      for i := 0 to |lines|
        invariant Index(lines[..i]) == Some(found)
      {
        assert lines[..i + 1][..i] == lines[..i];
        match lines[i].body {
          case Blank =>
          case Garbled =>
            GarbledStays(lines, i + 1);
            return None;
          case Holds(e) =>
            if e.key.id != "" {
              found := found[e.key := e];
            }
        }
      }
      assert lines[..|lines|] == lines;
      return Some(found);
    }

    /** rebuildManifest over the two directory listings. */
    method RebuildManifest(traces: seq<string>, recordings: seq<string>)
      modifies this`manifest
      ensures manifest == Some(Rebuilt(files, TraceKind, traces) + Rebuilt(files, RecordingKind, recordings))
    {
      var first := ScanAndWrite(TraceKind, traces);
      var second := ScanAndWrite(RecordingKind, recordings);
      manifest := Some(first + second);
    }

    method ScanAndWrite(kind: Kind, names: seq<string>) returns (lines: seq<Line>)
      ensures lines == Rebuilt(files, kind, names)
    {
      lines := [];
      for i := 0 to |names|
        invariant lines == Rebuilt(files, kind, names[..i])
      {
        assert names[..i + 1][..i] == names[..i];
        if !Temporary(names[i]) && Key(kind, names[i]) in files {
          lines := lines + [Line(Holds(EntryFor(files[Key(kind, names[i])])), true)];
        }
      }
      assert names[..|names|] == names;
    }

    /** The loop over a listing. */
    method Gather(index: Option<map<Key, Entry>>, kind: Kind, names: seq<string>, f: Filter)
        returns (found: seq<Document>)
      ensures found == IndexedScan(files, index, kind, names, f)
    {
      found := [];
      for i := 0 to |names|
        invariant found == IndexedScan(files, index, kind, names[..i], f)
      {
        assert names[..i + 1][..i] == names[..i];
        var key := Key(kind, names[i]);
        if Temporary(key.id) {
          continue;
        }
        if Skips(index, key, f) {
          continue;
        }
        if key in files && MatchesTraceFilter(files[key].Final(), f) {
          found := found + [files[key]];
        }
      }
      assert names[..|names|] == names;
    }

    /**
     QueryTraces and QueryRecordings over the directory listings: the newest of what the indexed
     scan selects, and of what a plain scan of the same listing selects when the index is sound.
     */
    method Query(kind: Kind, f: Filter, traces: seq<string>, recordings: seq<string>, rebuilds: bool)
        returns (r: seq<Document>)
      modifies this`manifest
      ensures var names := if kind == TraceKind then traces else recordings;
              Newest(r, IndexedScan(files, IndexOf(old(manifest)), kind, names, f), f.limit)
      ensures old(Sound(files, manifest)) ==>
                Newest(r, ScanOf(files, kind, if kind == TraceKind then traces else recordings, f), f.limit)
      ensures var names := if kind == TraceKind then traces else recordings;
              && (forall d | d in r :: Offered(files, kind, names, f, d))
              && (forall i, j | 0 <= i < j < |r| :: r[j].Final().startedAt <= r[i].Final().startedAt)
              && (f.limit > 0 ==> |r| <= f.limit)
      ensures var names := if kind == TraceKind then traces else recordings;
              old(Sound(files, manifest)) ==>
                forall d | Offered(files, kind, names, f, d) ::
                  d in r || (0 < f.limit == |r| && forall e | e in r :: d.Final().startedAt <= e.Final().startedAt)
      ensures IndexOf(old(manifest)).Some? || !rebuilds ==> manifest == old(manifest)
      ensures IndexOf(old(manifest)).None? && rebuilds ==>
                manifest == Some(Rebuilt(files, TraceKind, traces) + Rebuilt(files, RecordingKind, recordings))
    {
      var index := LoadManifestIndex();
      if index.None? && rebuilds {
        RebuildManifest(traces, recordings);
      }
      var names := if kind == TraceKind then traces else recordings;
      var found := Gather(index, kind, names, f);
      if old(Sound(files, manifest)) {
        CoherentScanIsExact(files, index, kind, names, f);
      }
      hide IndexedScan, ScanOf, Offered, Sound, Document.Final, Rebuilt;
      r := Sorted(found);
      ghost var all := r;
      if f.limit > 0 && |r| > f.limit {
        r := r[..f.limit];
      }
      assert multiset(all) == multiset(found) && Descending(all);
      AnswerIsOffered(files, index, kind, names, f, r);
      if old(Sound(files, manifest)) {
        AnswerIsComplete(files, kind, names, f, r);
      }
    }
  }

  // ---- Sequential stores, overwriting or not ----

  /** Appending with any effect leaves the last entry for d's key d's own, or no index at all. */
  lemma AppendedIndex(manifest: Option<seq<Line>>, e: Entry, how: AppendEnd)
    requires e.key.id != "" && !how.Lost?
    ensures var before := if manifest.Some? then Index(manifest.value) else Some(map[]);
            var after := IndexOf(Appended(manifest, e, how));
            after.None? || (before.Some? && after == Some(before.value[e.key := e]))
  {
    var lines := if manifest.Some? then manifest.value else [];
    PutIndex(lines, if how.Torn? && !how.parses then Garbled else Holds(e), how.Written?);
  }

  /** Whole appends to a manifest that loads, or to none, keep it loading, with the entry as the last for its key. */
  lemma WrittenAppendLoads(manifest: Option<seq<Line>>, e: Entry)
    requires e.key.id != ""
    requires manifest.Some? ==> Index(manifest.value).Some? && forall l | l in manifest.value :: l.ended
    ensures var was := if manifest.Some? then Index(manifest.value).value else map[];
            var now := Appended(manifest, e, Written);
            now.Some? && (forall l | l in now.value :: l.ended) && Index(now.value) == Some(was[e.key := e])
  {
    PutIndex(if manifest.Some? then manifest.value else [], Holds(e), true);
  }

  /** After an append that was cut short, the next one joins its line, and the manifest no longer loads. */
  lemma TornAppendSpoilsNext(manifest: Option<seq<Line>>, e: Entry, parses: bool, next: Entry)
    ensures IndexOf(Appended(Appended(manifest, e, Torn(parses)), next, Written)).None?
  {
    var torn := Appended(manifest, e, Torn(parses)).value;
    PutIndex(torn, Holds(next), true);
  }

  /**
   Storing keeps the index sound under the exact condition: an append with an effect needs d's
   configs to agree, and a lost append needs any older entry for d's key to cover d.
   */
  lemma StoreKeepsSound(files: map<Key, Document>, manifest: Option<seq<Line>>, d: Document, how: AppendEnd)
    requires Sound(files, manifest) && d.Name().id != ""
    ensures var index := IndexOf(Appended(manifest, EntryFor(d), how));
            Sound(files[d.Name() := d], Appended(manifest, EntryFor(d), how)) <==>
            (index.None? || (if how.Lost? then d.Name() !in index.value || Covers(index.value[d.Name()], d.Final())
                             else ConfigsAgree(d)))
  {
    OwnEntryCovers(d);
    if !how.Lost? {
      AppendedIndex(manifest, EntryFor(d), how);
      var files' := files[d.Name() := d];
      var index := IndexOf(Appended(manifest, EntryFor(d), how));
      if index.Some? {
        assert index.value[d.Name()] == EntryFor(d);
        forall k | k in files' && k in index.value && k != d.Name()
          ensures Covers(index.value[k], files'[k].Final())
        {
          assert manifest.Some? && k in IndexOf(manifest).value;
        }
      }
    }
  }

  lemma EntryKey(d: Document)
    ensures EntryFor(d).key == d.Name()
  {}

  /** The index a first successful store leaves, and a scan of one file through it. */
  lemma OneFileScan(files: map<Key, Document>, first: Document, key: Key, f: Filter)
    requires key.id != "" && first.Name() == key
    ensures IndexOf(Appended(None, EntryFor(first), Written)) == Some(map[key := EntryFor(first)])
    ensures ScanOf(files, key.kind, [key.id], f) == Selected(files, key, f)
    ensures IndexedScan(files, Some(map[key := EntryFor(first)]), key.kind, [key.id], f)
            == if MatchesManifestEntry(EntryFor(first), f) then Selected(files, key, f) else []
  {
    hide EntryFor;
    hide Selected;
    hide MatchesManifestEntry;
    PutIndex([], Holds(EntryFor(first)), true);
    assert [key.id][..0] == [];
    EntryKey(first);
  }

  /** A re-stored trace whose append is lost is hidden by its old entry from a filter it matches. */
  lemma LostOverwriteHidesTrace() returns (was: Document, now: Document, f: Filter)
    ensures var manifest := Appended(Appended(None, EntryFor(was), Written), EntryFor(now), Lost);
            var files := map[was.Name() := was][now.Name() := now];
            && ScanOf(files, TraceKind, ["t1"], f) == [now]
            && IndexedScan(files, IndexOf(manifest), TraceKind, ["t1"], f) == []
  {
    was := Trace(RunTrace("t1", 0, "error", "execution", "m", "p"));
    now := Trace(RunTrace("t1", 1, "success", "execution", "m", "p"));
    f := NO_FILTER.(outcome := "success");
    assert "error"[0] != "success"[0];
    OneFileScan(map[was.Name() := was][now.Name() := now], was, Key(TraceKind, "t1"), f);
    assert !Temporary("t1");
    assert MatchesTraceFilter(now.Final(), f) && !MatchesManifestEntry(EntryFor(was), f);
  }

  /** A recording whose own config and final config name different modes is hidden from its mode. */
  lemma DisagreeingRecordingIsHidden() returns (d: Document, f: Filter)
    ensures && ScanOf(map[d.Name() := d], RecordingKind, ["r1"], f) == [d]
            && IndexedScan(map[d.Name() := d], IndexOf(Appended(None, EntryFor(d), Written)), RecordingKind, ["r1"], f)
                   == []
  {
    d := Recording(RunRecording("r1", "planning", "m", "p", RunTrace("r1", 0, "success", "execution", "m", "p")));
    f := NO_FILTER.(mode := "execution");
    assert "planning"[0] != "execution"[0];
    OneFileScan(map[d.Name() := d], d, Key(RecordingKind, "r1"), f);
    assert !Temporary("r1");
    assert MatchesTraceFilter(d.Final(), f) && !MatchesManifestEntry(EntryFor(d), f);
  }
}
