/**
 Whole runs of the trace store. Sequential runs may overwrite documents; concurrent runs
 interleave file writes, appends, manifest rebuilds and queries one file-system step at a time.
 */
module LakehouseRuns {
  import opened Lakehouse
  import opened Optional

  // ---- Sequential runs ----

  datatype Op =
    | Stored(d: Document, how: AppendEnd)
    | RebuiltFrom(traces: seq<string>, recordings: seq<string>)

  datatype Disk = Disk(files: map<Key, Document>, manifest: Option<seq<Line>>)

  const EMPTY := Disk(map[], None)

  function Apply(disk: Disk, op: Op): Disk {
    match op
    case Stored(d, how) =>
      if d.Name().id == "" then disk
      else Disk(disk.files[d.Name() := d], Appended(disk.manifest, EntryFor(d), how))
    case RebuiltFrom(traces, recordings) =>
      disk.(manifest := Some(Rebuilt(disk.files, TraceKind, traces) + Rebuilt(disk.files, RecordingKind, recordings)))
  }

  function Run(disk: Disk, ops: seq<Op>): Disk {
    if ops == [] then disk else Apply(Run(disk, ops[..|ops| - 1]), ops[|ops| - 1])
  }

  /** A store whose append took effect, complete or torn, of a document whose configs agree. */
  predicate Effective(op: Op) { op.Stored? ==> !op.how.Lost? && ConfigsAgree(op.d) }

  ghost predicate GoodFiles(files: map<Key, Document>) {
    Filed(files) && forall k | k in files :: ConfigsAgree(files[k])
  }

  lemma ApplyKeepsGood(disk: Disk, op: Op)
    requires GoodFiles(disk.files) && Effective(op)
    ensures GoodFiles(Apply(disk, op).files)
  {}

  lemma {:induction false} RunKeepsGood(ops: seq<Op>)
    requires forall op | op in ops :: Effective(op)
    ensures GoodFiles(Run(EMPTY, ops).files)
  {
    if ops != [] {
      assert forall op | op in ops[..|ops| - 1] :: op in ops;
      RunKeepsGood(ops[..|ops| - 1]);
      assert ops[|ops| - 1] in ops;
      ApplyKeepsGood(Run(EMPTY, ops[..|ops| - 1]), ops[|ops| - 1]);
    }
  }

  /**
   With overwrites allowed, any sequence of stores whose appends take effect, and rebuilds,
   leaves a store every query of which is exact.
   */
  lemma {:induction false} SequentialRunIsSound(ops: seq<Op>)
    requires forall op | op in ops :: Effective(op)
    ensures Sound(Run(EMPTY, ops).files, Run(EMPTY, ops).manifest)
  {
    if ops != [] {
      var front, op := ops[..|ops| - 1], ops[|ops| - 1];
      assert forall o | o in front :: o in ops;
      var disk := Run(EMPTY, front);
      SequentialRunIsSound(front);
      RunKeepsGood(front);
      assert op in ops;
      if op.Stored? {
        if op.d.Name().id != "" {
          StoreKeepsSound(disk.files, disk.manifest, op.d, op.how);
        }
      } else {
        RebuiltIsTrue(disk.files, TraceKind, op.traces);
        RebuiltIsTrue(disk.files, RecordingKind, op.recordings);
        var lines := Rebuilt(disk.files, TraceKind, op.traces) + Rebuilt(disk.files, RecordingKind, op.recordings);
        TrueLinesIndex(disk.files, lines);
        TrueIndexIsSound(disk.files, Some(lines));
      }
    }
  }

  lemma TrueIndexIsSound(files: map<Key, Document>, manifest: Option<seq<Line>>)
    requires TrueIndex(files, IndexOf(manifest)) && forall k | k in files :: ConfigsAgree(files[k])
    ensures Sound(files, manifest)
  {
    if IndexOf(manifest).Some? {
      forall k | k in files && k in IndexOf(manifest).value
        ensures Covers(IndexOf(manifest).value[k], files[k].Final())
      {
        OwnEntryCovers(files[k]);
      }
    }
  }

  // ---- Concurrent runs with write-once keys ----

  /** A query that has loaded its index, then its listing, has visited names[..next], and at last answers. */
  datatype Search = Search(kind: Kind, f: Filter, index: Option<map<Key, Entry>>, listed: bool,
                           names: seq<string>, next: nat, got: seq<Document>, answer: Option<seq<Document>>)

  /** drafts are the temporary manifests of rebuilds under way. */
  datatype World = World(files: map<Key, Document>, manifest: Option<seq<Line>>,
                         drafts: map<nat, seq<Line>>, searches: map<nat, Search>)

  const START := World(map[], None, map[], map[])

  datatype Action =
    | WriteFile(d: Document)
    | Append(d: Document, how: AppendEnd)
    | Begin(rebuild: nat)
    | Draft(rebuild: nat, key: Key)
    | Commit(rebuild: nat)
    | Abandon(rebuild: nat)
    | Load(search: nat, kind: Kind, f: Filter, seen: seq<Line>, torn: bool)
    | List(search: nat, names: seq<string>)
    | Visit(search: nat)
    | Return(search: nat, answer: seq<Document>)

  /** A read that races an append sees a prefix of the lines, the next one perhaps half written. */
  predicate Sees(manifest: Option<seq<Line>>, seen: seq<Line>) {
    manifest.Some? && seen <= manifest.value
  }

  function LoadedIndex(manifest: Option<seq<Line>>, seen: seq<Line>, torn: bool): Option<map<Key, Entry>> {
    if manifest.None? || torn then None else Index(seen)
  }

  /** Whether the action may happen; a key is never given a second, different document. */
  ghost predicate Enabled(w: World, a: Action) {
    match a
    case WriteFile(d) => d.Name().id != "" && ConfigsAgree(d) && (d.Name() in w.files ==> w.files[d.Name()] == d)
    case Append(d, _) => d.Name() in w.files && w.files[d.Name()] == d
    case Begin(r) => r !in w.drafts
    case Draft(r, key) => r in w.drafts && key in w.files && !Temporary(key.id)
    case Commit(r) => r in w.drafts
    case Abandon(r) => r in w.drafts
    case Load(s, _, _, seen, _) => s !in w.searches && (w.manifest.Some? ==> Sees(w.manifest, seen))
    case List(s, names) =>
      && s in w.searches && !w.searches[s].listed
      && (forall name | name in names :: Key(w.searches[s].kind, name) in w.files)
      && (forall k | k in w.files && k.kind == w.searches[s].kind :: k.id in names)
    case Visit(s) => s in w.searches && w.searches[s].listed && w.searches[s].next < |w.searches[s].names|
    case Return(s, answer) =>
      && s in w.searches && w.searches[s].listed && w.searches[s].next == |w.searches[s].names|
         && w.searches[s].answer.None?
      && Newest(answer, w.searches[s].got, w.searches[s].f.limit)
  }

  /** One file of a query's loop: skip it by the index, or load it and match it. */
  function Visited(files: map<Key, Document>, q: Search): Search
    requires q.next < |q.names|
  {
    var key := Key(q.kind, q.names[q.next]);
    q.(next := q.next + 1, got := q.got + (if Skips(q.index, key, q.f) then [] else Selected(files, key, q.f)))
  }

  function Next(w: World, a: Action): World
    requires Enabled(w, a)
  {
    match a
    case WriteFile(d) => w.(files := w.files[d.Name() := d])
    case Append(d, how) => w.(manifest := Appended(w.manifest, EntryFor(d), how))
    case Begin(r) => w.(drafts := w.drafts[r := []])
    case Draft(r, key) => w.(drafts := w.drafts[r := w.drafts[r] + [Line(Holds(EntryFor(w.files[key])), true)]])
    case Commit(r) => w.(manifest := Some(w.drafts[r]), drafts := w.drafts - {r})
    case Abandon(r) => w.(drafts := w.drafts - {r})
    case Load(s, kind, f, seen, torn) =>
      w.(searches := w.searches[s := Search(kind, f, LoadedIndex(w.manifest, seen, torn), false, [], 0, [], None)])
    case List(s, names) => w.(searches := w.searches[s := w.searches[s].(listed := true, names := names)])
    case Visit(s) => w.(searches := w.searches[s := Visited(w.files, w.searches[s])])
    case Return(s, answer) => w.(searches := w.searches[s := w.searches[s].(answer := Some(answer))])
  }

  // ---- The invariant ----

  ghost predicate GoodSearch(files: map<Key, Document>, q: Search) {
    && TrueIndex(files, q.index)
    && (forall name | name in q.names :: Key(q.kind, name) in files)
    && q.next <= |q.names|
    && (!q.listed ==> q.names == [])
    && q.got == ScanOf(files, q.kind, q.names[..q.next], q.f)
    && (q.answer.Some? ==> q.listed && q.next == |q.names| && Newest(q.answer.value, q.got, q.f.limit))
  }

  ghost predicate Inv(w: World) {
    && GoodFiles(w.files)
    && (w.manifest.Some? ==> TrueLines(w.files, w.manifest.value))
    && (forall r | r in w.drafts :: TrueLines(w.files, w.drafts[r]))
    && (forall s | s in w.searches :: GoodSearch(w.files, w.searches[s]))
  }

  /** No stored document changes. */
  predicate Grows(files: map<Key, Document>, files': map<Key, Document>) {
    forall k | k in files :: k in files' && files'[k] == files[k]
  }

  lemma {:induction false} ScanIsStable(files: map<Key, Document>, files': map<Key, Document>, kind: Kind,
                                        names: seq<string>, f: Filter)
    requires Grows(files, files') && forall name | name in names :: Key(kind, name) in files
    ensures ScanOf(files', kind, names, f) == ScanOf(files, kind, names, f)
  {
    if names != [] {
      assert forall name | name in names[..|names| - 1] :: name in names;
      ScanIsStable(files, files', kind, names[..|names| - 1], f);
    }
  }

  lemma SearchIsStable(files: map<Key, Document>, files': map<Key, Document>, q: Search)
    requires Grows(files, files') && GoodSearch(files, q)
    ensures GoodSearch(files', q)
  {
    assert forall name | name in q.names[..q.next] :: name in q.names;
    ScanIsStable(files, files', q.kind, q.names[..q.next], q.f);
  }

  lemma WriteFileKeepsInv(w: World, d: Document)
    requires Inv(w) && Enabled(w, WriteFile(d))
    ensures Inv(Next(w, WriteFile(d)))
  {
    var w' := Next(w, WriteFile(d));
    forall s | s in w'.searches ensures GoodSearch(w'.files, w'.searches[s]) {
      SearchIsStable(w.files, w'.files, w.searches[s]);
    }
  }

  lemma PutKeepsTrue(files: map<Key, Document>, lines: seq<Line>, body: Body, ended: bool)
    requires TrueLines(files, lines) && (body.Holds? ==> TrueEntry(files, body.entry))
    ensures TrueLines(files, Put(lines, body, ended))
  {
    assert lines != [] ==> forall l | l in lines[..|lines| - 1] :: l in lines;
  }

  lemma ManifestActionKeepsInv(w: World, a: Action)
    requires Inv(w) && Enabled(w, a) && (a.Append? || a.Begin? || a.Draft? || a.Commit? || a.Abandon?)
    ensures Inv(Next(w, a))
  {
    if a.Append? && !a.how.Lost? {
      var lines := if w.manifest.Some? then w.manifest.value else [];
      var body := if a.how.Torn? && !a.how.parses then Garbled else Holds(EntryFor(a.d));
      PutKeepsTrue(w.files, lines, body, a.how.Written?);
    }
  }

  lemma LoadKeepsInv(w: World, a: Action)
    requires Inv(w) && Enabled(w, a) && a.Load?
    ensures Inv(Next(w, a))
  {
    if w.manifest.Some? {
      assert forall l | l in a.seen :: l in w.manifest.value;
      TrueLinesIndex(w.files, a.seen);
    }
    assert GoodSearch(w.files, Next(w, a).searches[a.search]);
  }

  lemma VisitKeepsGood(files: map<Key, Document>, q: Search)
    requires GoodFiles(files) && GoodSearch(files, q) && q.next < |q.names|
    ensures GoodSearch(files, Visited(files, q))
  {
    var key := Key(q.kind, q.names[q.next]);
    assert q.names[..q.next + 1][..q.next] == q.names[..q.next];
    assert q.names[q.next] in q.names;
    if Skips(q.index, key, q.f) {
      TrueIndexIsCoherent(files, q.index, q.kind, q.names);
      SafeSkipIffCovers(q.index.value[key], files[key].Final());
    }
  }

  lemma SearchActionKeepsInv(w: World, a: Action)
    requires Inv(w) && Enabled(w, a) && (a.List? || a.Visit? || a.Return?)
    ensures Inv(Next(w, a))
  {
    var q := w.searches[a.search];
    if a.Visit? {
      VisitKeepsGood(w.files, q);
    } else if a.List? {
      assert a.names[..0] == q.names[..0] == [];
    }
  }

  lemma ActionKeepsInv(w: World, a: Action)
    requires Inv(w) && Enabled(w, a)
    ensures Inv(Next(w, a))
  {
    match a
    case WriteFile(d) => WriteFileKeepsInv(w, d);
    case Append(_, _) => ManifestActionKeepsInv(w, a);
    case Begin(_) => ManifestActionKeepsInv(w, a);
    case Draft(_, _) => ManifestActionKeepsInv(w, a);
    case Commit(_) => ManifestActionKeepsInv(w, a);
    case Abandon(_) => ManifestActionKeepsInv(w, a);
    case Load(_, _, _, _, _) => LoadKeepsInv(w, a);
    case List(_, _) => SearchActionKeepsInv(w, a);
    case Visit(_) => SearchActionKeepsInv(w, a);
    case Return(_, _) => SearchActionKeepsInv(w, a);
  }

  /** The actions happen one after the other from w to w'. */
  ghost predicate Runs(w: World, actions: seq<Action>, w': World)
    decreases |actions|
  {
    if actions == [] then w' == w
    else Enabled(w, actions[0]) && Runs(Next(w, actions[0]), actions[1..], w')
  }

  lemma {:induction false} RunKeepsInv(w: World, actions: seq<Action>, w': World)
    requires Inv(w) && Runs(w, actions, w')
    ensures Inv(w')
    decreases |actions|
  {
    if actions != [] {
      ActionKeepsInv(w, actions[0]);
      RunKeepsInv(Next(w, actions[0]), actions[1..], w');
    }
  }

  /**
   In every interleaving from an empty store, the answer of a query is the newest of exactly what a
   plain scan of its listing selects, however stale or partial the manifest it read.
   */
  lemma InterleavedQueryIsExact(actions: seq<Action>, w: World, s: nat)
    requires Runs(START, actions, w) && s in w.searches && w.searches[s].answer.Some?
    ensures var q := w.searches[s]; Newest(q.answer.value, ScanOf(w.files, q.kind, q.names, q.f), q.f.limit)
  {
    RunKeepsInv(START, actions, w);
    AnswerIsNewest(w, s);
  }

  lemma AnswerIsNewest(w: World, s: nat)
    requires Inv(w) && s in w.searches && w.searches[s].answer.Some?
    ensures var q := w.searches[s]; Newest(q.answer.value, ScanOf(w.files, q.kind, q.names, q.f), q.f.limit)
  {
    hide Newest, ScanOf, TrueIndex, GoodFiles, TrueLines;
    assert w.searches[s].names[..|w.searches[s].names|] == w.searches[s].names;
  }

  /** What the listing was taken from is in it for good, so no document stored before it is missed. */
  lemma {:induction false} ListingIsKept(w: World, actions: seq<Action>, w': World, s: nat)
    requires Runs(w, actions, w') && s in w.searches && w.searches[s].listed
    ensures s in w'.searches && w'.searches[s].listed && w'.searches[s].names == w.searches[s].names
    ensures w'.searches[s].kind == w.searches[s].kind && w'.searches[s].f == w.searches[s].f && Grows(w.files, w'.files)
    decreases |actions|
  {
    if actions != [] {
      ListingIsKept(Next(w, actions[0]), actions[1..], w', s);
    }
  }

  /**
   In every interleaving, the answer holds only wanted documents of the listing, newest first and
   within the limit. A wanted document whose file was written before the query listed the directory
   is in it, unless the limit is used up by documents at least as new, whatever happened since.
   */
  lemma NoStoredDocumentIsMissed(w: World, names: seq<string>, actions: seq<Action>, w': World, s: nat, d: Document)
    requires Inv(w) && Enabled(w, List(s, names)) && Runs(Next(w, List(s, names)), actions, w')
    ensures s in w'.searches && w'.searches[s].f == w.searches[s].f
    ensures var q := w'.searches[s];
            q.answer.Some? ==>
              && (forall e | e in q.answer.value :: Offered(w'.files, q.kind, names, q.f, e))
              && (forall i, j | 0 <= i < j < |q.answer.value| ::
                    q.answer.value[j].Final().startedAt <= q.answer.value[i].Final().startedAt)
              && (q.f.limit > 0 ==> |q.answer.value| <= q.f.limit)
    ensures var q := w'.searches[s];
            q.answer.Some? && d.Name() in w.files && w.files[d.Name()] == d && d.Name().kind == q.kind
            && !(".tmp" <= d.Name().id) && Wanted(d.Final(), q.f) ==>
              d in q.answer.value
              || (0 < q.f.limit == |q.answer.value|
                  && forall e | e in q.answer.value :: d.Final().startedAt <= e.Final().startedAt)
  {
    var listed := Next(w, List(s, names));
    ListingIsKept(listed, actions, w', s);
    ActionKeepsInv(w, List(s, names));
    RunKeepsInv(listed, actions, w');
    assert d.Name() in w.files && d.Name().kind == w.searches[s].kind ==> d.Name().id in names;
    hide Inv, Runs, Newest, ScanOf, Wanted, Document.Final, Document.Name;
    var q := w'.searches[s];
    if q.answer.Some? {
      AnswerIsNewest(w', s);
      NewestIsOffered(w'.files, q.kind, names, q.f, q.answer.value);
      AnswerIsComplete(w'.files, q.kind, names, q.f, q.answer.value);
    }
  }

  lemma NewestIsOffered(files: map<Key, Document>, kind: Kind, names: seq<string>, f: Filter, r: seq<Document>)
    requires Newest(r, ScanOf(files, kind, names, f), f.limit)
    ensures forall d | d in r :: Offered(files, kind, names, f, d)
    ensures forall i, j | 0 <= i < j < |r| :: r[j].Final().startedAt <= r[i].Final().startedAt
    ensures f.limit > 0 ==> |r| <= f.limit
  {
    hide Newest, ScanOf, Offered, Document.Final;
    NewestIsTop(r, ScanOf(files, kind, names, f), f.limit);
    forall d | d in r ensures Offered(files, kind, names, f, d) {
      ScanMeaning(files, kind, names, f, d);
    }
  }
}
