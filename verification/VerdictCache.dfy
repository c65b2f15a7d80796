/**
 Models how a diff-review judge uses the verdict cache: reviewDiff and evaluateDiffReview
 (eval/judge/diffreview.go), lookupVerdict, checkCachedVerdict and CacheStats
 (eval/judge/cache.go), over the keyed store that FileCache implements
 (eval/judge/filecache.go). The cache key is injective, so a key is the triple it hashes; the
 model's reply and the file system's failures are part of the request.
 */
module VerdictCache {
  import opened PrintableText
  import opened Optional

  datatype Mode = Live | Recording | ReadThrough | ReplayStrict

  predicate Reads(m: Mode) { m.ReadThrough? || m.ReplayStrict? }

  predicate Writes(m: Mode) { m.Recording? || m.ReadThrough? }

  datatype Status = Pass | Fail | Error

  datatype Parse = Unparsed | ParsedOnce | ParsedSame | Rejected

  datatype CacheStatus = Unset | Bypass | Miss | Stored | Hit

  datatype Key = Key(config: string, input: string, sample: int)

  datatype Record = Record(config: string, input: string, parse: Parse, model: string, status: CacheStatus,
      key: Option<Key>)

  datatype Verdict = Verdict(passed: bool, status: Status, reason: string, record: Option<Record>)

  /** What a model call yields: a pass or fail with its raw reason, or no verdict. */
  datatype Reply = Answer(pass: bool, raw: string, repeated: bool, model: string) | NoAnswer(parse: Parse)

  /** Where a review fails before its cache key is known. */
  datatype Early = NotEarly | BeforeRecord | AfterRecord

  datatype Request = Request(mode: Mode, early: Early, config: string, input: string, sample: int, reply: Reply,
                             getFails: bool, putFails: bool)

  datatype Stats = Stats(hits: nat, misses: nat, stored: nat, bypassed: nat, replaced: nat, writeErrors: nat)

  datatype State = State(store: map<Key, Verdict>, stats: Stats, calls: nat)

  const ERROR_REASON := "diff-review: error"

  function ErrorVerdict(record: Option<Record>): Verdict { Verdict(false, Error, ERROR_REASON, record) }

  // ---- Entries ----

  predicate Cacheable(v: Verdict) {
    v.record.Some? && !v.status.Error? && (v.record.value.parse.ParsedOnce? || v.record.value.parse.ParsedSame?)
  }

  function CacheEntry(v: Verdict): Verdict
    requires v.record.Some?
  {
    v.(record := Some(v.record.value.(status := Unset, key := None)))
  }

  /** checkCachedVerdict: the entry is a consistent, cacheable verdict on this configuration and input. */
  predicate Usable(cached: Verdict, rec: Record) {
    && Cacheable(cached) && (cached.passed <==> cached.status.Pass?)
    && cached.record.value.config == rec.config && cached.record.value.input == rec.input
  }

  /** The verdict lookupVerdict serves, completing rec from the entry. */
  function Served(cached: Verdict, rec: Record): Verdict
    requires cached.record.Some?
  {
    Verdict(cached.status.Pass?, cached.status, VerdictReason(cached.reason),
            Some(rec.(model := Printable(cached.record.value.model, 256), parse := cached.record.value.parse,
                status := Hit)))
  }

  /** The verdict of a model call whose record so far is rec; an answer's reason is made printable. */
  function Called(reply: Reply, rec: Record): Verdict {
    match reply
    case Answer(pass, raw, repeated, model) =>
      Verdict(pass, if pass then Pass else Fail, VerdictReason(raw),
              Some(rec.(parse := if repeated then ParsedSame else ParsedOnce, model := model)))
    case NoAnswer(parse) => ErrorVerdict(Some(rec.(parse := parse)))
  }

  // ---- One review ----

  datatype Lookup = Found(verdict: Verdict) | Missing | Unusable

  function LookUp(store: map<Key, Verdict>, key: Key, rec: Record, getFails: bool): Lookup {
    if getFails then Unusable
    else if key !in store then Missing
    else if Usable(store[key], rec) then Found(Served(store[key], rec))
    else Unusable
  }

  function Counted(s: Stats, v: Verdict): Stats {
    if v.record.None? then s
    else
      match v.record.value.status
      case Hit => s.(hits := s.hits + 1)
      case Miss => s.(misses := s.misses + 1)
      case Stored => s.(stored := s.stored + 1)
      case Bypass => s.(bypassed := s.bypassed + 1)
      case Unset => s
  }

  /** evaluateDiffReview: the verdict, and the state after it is counted. */
  function Review(st: State, req: Request): (r: (State, Verdict)) {
    var (after, v) := Reviewed(st, req);
    (after.(stats := Counted(after.stats, v)), v)
  }

  function Reviewed(st: State, req: Request): (r: (State, Verdict)) {
    var rec := Record(req.config, req.input, Unparsed, "", Bypass, None);
    if req.early.BeforeRecord? then (st, ErrorVerdict(None))
    else if req.early.AfterRecord? then (st, ErrorVerdict(Some(rec)))
    else if req.mode.Live? then (st.(calls := st.calls + 1), Called(req.reply, rec))
    else
      var key := Key(req.config, req.input, req.sample);
      var keyed := rec.(key := Some(key), status := Miss);
      if !Reads(req.mode) then CallAndStore(st, req, key, keyed)
      else
        match LookUp(st.store, key, keyed, req.getFails)
        case Found(v) => (st, v)
        case Missing =>
          if req.mode.ReplayStrict? then (st, ErrorVerdict(Some(keyed))) else CallAndStore(st, req, key, keyed)
        case Unusable =>
          if req.mode.ReplayStrict? then (st, ErrorVerdict(Some(keyed)))
          else CallAndStore(st.(stats := st.stats.(replaced := st.stats.replaced + 1)), req, key, keyed)
  }

  function CallAndStore(st: State, req: Request, key: Key, rec: Record): (r: (State, Verdict)) {
    var v := Called(req.reply, rec);
    var called := st.(calls := st.calls + 1);
    if req.reply.NoAnswer? || !Writes(req.mode) || !Cacheable(v) then (called, v)
    else if req.putFails then (called.(stats := st.stats.(writeErrors := st.stats.writeErrors + 1)), v)
    else (called.(store := st.store[key := CacheEntry(v)]), v.(record := Some(v.record.value.(status := Stored))))
  }

  /** The judge with its cache and counters, updated in place. */
  class Reviewer {
    var store: map<Key, Verdict>
    var hits: nat
    var misses: nat
    var stored: nat
    var bypassed: nat
    var replaced: nat
    var writeErrors: nat
    var calls: nat

    constructor ()
      ensures Value() == EMPTY
    {
      store, hits, misses, stored, bypassed, replaced, writeErrors, calls := map[], 0, 0, 0, 0, 0, 0, 0;
    }

    ghost function Value(): State
      reads this
    {
      State(store, Stats(hits, misses, stored, bypassed, replaced, writeErrors), calls)
    }

    method Evaluate(req: Request) returns (v: Verdict)
      modifies this
      ensures (Value(), v) == Review(old(Value()), req)
    {
      v := ReviewDiff(req);
      if v.record.Some? {
        Count(v.record.value.status);
      }
    }

    method Count(status: CacheStatus)
      modifies this
      ensures forall v: Verdict | v.record.Some? && v.record.value.status == status ::
                Value() == old(Value()).(stats := Counted(old(Value()).stats, v))
    {
      match status {
        case Hit => hits := hits + 1;
        case Miss => misses := misses + 1;
        case Stored => stored := stored + 1;
        case Bypass => bypassed := bypassed + 1;
        case Unset =>
      }
    }

    method ReviewDiff(req: Request) returns (v: Verdict)
      modifies this
      ensures (Value(), v) == Reviewed(old(Value()), req)
    {
      hide VerdictReason;
      hide Printable;
      if req.early.BeforeRecord? {
        return ErrorVerdict(None);
      }
      var rec := Record(req.config, req.input, Unparsed, "", Bypass, None);
      if req.early.AfterRecord? {
        return ErrorVerdict(Some(rec));
      }
      if req.mode.Live? {
        calls := calls + 1;
        return Called(req.reply, rec);
      }
      var key := Key(req.config, req.input, req.sample);
      rec := rec.(key := Some(key));
      rec := rec.(status := Miss);
      if Reads(req.mode) {
        var found := LookUp(store, key, rec, req.getFails);
        if found.Found? {
          return found.verdict;
        } else if req.mode.ReplayStrict? {
          return ErrorVerdict(Some(rec));
        } else if found.Unusable? {
          replaced := replaced + 1;
        }
      }
      v := Call(req, key, rec);
    }

    /** The end of reviewDiff: the model call, and the write-back of its verdict. */
    method Call(req: Request, key: Key, rec: Record) returns (v: Verdict)
      modifies this
      ensures (Value(), v) == CallAndStore(old(Value()), req, key, rec)
    {
      hide VerdictReason;
      v := Called(req.reply, rec);
      calls := calls + 1;
      if req.reply.NoAnswer? || !Writes(req.mode) || !Cacheable(v) {
        return;
      }
      if req.putFails {
        writeErrors := writeErrors + 1;
        return;
      }
      store := store[key := CacheEntry(v)];
      v := v.(record := Some(v.record.value.(status := Stored)));
    }
  }

  const EMPTY := State(map[], Stats(0, 0, 0, 0, 0, 0), 0)

  // ---- Whole runs ----

  function Run(st: State, reqs: seq<Request>): (r: State) {
    if reqs == [] then st else Review(Run(st, reqs[..|reqs| - 1]), reqs[|reqs| - 1]).0
  }

  /** How many of the run's verdicts carry a record. */
  function Carrying(st: State, reqs: seq<Request>): (n: nat) {
    if reqs == [] then 0
    else
      Carrying(st, reqs[..|reqs| - 1])
      + (if Review(Run(st, reqs[..|reqs| - 1]), reqs[|reqs| - 1]).1.record.Some? then 1 else 0)
  }

  function KeyOf(req: Request): Key { Key(req.config, req.input, req.sample) }

  /** The verdict evaluation i of a run from the empty cache returned. */
  function At(reqs: seq<Request>, i: nat): Verdict
    requires i < |reqs|
  {
    Review(Run(EMPTY, reqs[..i]), reqs[i]).1
  }

  predicate WasStored(v: Verdict) { v.record.Some? && v.record.value.status.Stored? }

  lemma RunExtends(reqs: seq<Request>, n: nat)
    requires n < |reqs|
    ensures Run(EMPTY, reqs[..n + 1]) == Review(Run(EMPTY, reqs[..n]), reqs[n]).0
  {
    assert reqs[..n + 1][..n] == reqs[..n];
  }

  // ---- Where stored entries come from ----

  /** v is what the model answered to req: its decision, and its reason made printable. */
  predicate IsAnswer(v: Verdict, req: Request) {
    && req.reply.Answer? && v.passed == req.reply.pass && v.status == (if req.reply.pass then Pass else Fail)
    && v.reason == VerdictReason(req.reply.raw)
    && v.record.Some? && v.record.value.model == req.reply.model
    && v.record.value.parse == (if req.reply.repeated then ParsedSame else ParsedOnce)
    && v.record.value.config == req.config && v.record.value.input == req.input
  }

  /** The request's key has a readable, usable entry. */
  predicate Serves(store: map<Key, Verdict>, req: Request) {
    && KeyOf(req) in store && !req.getFails
    && Usable(store[KeyOf(req)], Keyed(req))
  }

  /** When an evaluation asks the model. */
  predicate Asks(st: State, req: Request) {
    req.early.NotEarly? &&
    match req.mode
    case Live => true
    case Recording => true
    case ReadThrough => !Serves(st.store, req)
    case ReplayStrict => false
  }

  /** An evaluation whose answer could be kept: in one of the two modes that store, answered and written. */
  predicate Keeps(req: Request) {
    (req.mode.Recording? || req.mode.ReadThrough?) && req.early.NotEarly? && req.reply.Answer? && !req.putFails
  }

  /**
   One evaluation: the model is called exactly when it is asked, its answer is stored exactly when
   the mode is recording or read-through and the write succeeds, the entry is the verdict returned,
   and a verdict of a call is the model's own answer.
   */
  lemma ReviewStores(st: State, req: Request)
    ensures var (after, v) := Review(st, req);
            && after.calls == st.calls + (if Asks(st, req) then 1 else 0)
            && (WasStored(v) <==> Asks(st, req) && Keeps(req))
            && after.store == (if WasStored(v) then st.store[KeyOf(req) := CacheEntry(v)] else st.store)
            && (Asks(st, req) && req.reply.Answer? ==> IsAnswer(v, req))
            && (Asks(st, req) && !req.reply.Answer? ==> v.status.Error?)
  {
    ReviewedCases(st, req);
    assert Asks(st, req) ==> req.early.NotEarly? && !req.mode.ReplayStrict?;
    hide Reviewed, Asks, VerdictReason;
    hide Printable;
  }

  /** The record a review has when it reaches the cache. */
  function Keyed(req: Request): Record { Record(req.config, req.input, Unparsed, "", Miss, Some(KeyOf(req))) }

  /** A read that finds an entry it cannot use counts it as replaced. */
  function Marked(st: State, req: Request): State {
    if Reads(req.mode) && (req.getFails || KeyOf(req) in st.store)
    then st.(stats := st.stats.(replaced := st.stats.replaced + 1)) else st
  }

  /** A review calls the model without the cache, calls it and may store, or leaves everything as it is. */
  lemma ReviewedCases(st: State, req: Request)
    ensures var (after, v) := Reviewed(st, req);
            if !Asks(st, req) then
              after == st && !WasStored(v) && (v.record.Some? ==> !v.record.value.status.Unset?)
            else if req.mode.Live? then
              after == st.(calls := st.calls + 1)
              && v == Called(req.reply, Record(req.config, req.input, Unparsed, "", Bypass, None))
            else
              (after, v) == CallAndStore(Marked(st, req), req, KeyOf(req), Keyed(req))
  {
    hide VerdictReason;
    hide Printable;
    hide CallAndStore;
    hide Usable;
  }

  /** Of the first n evaluations, i is the last to have stored a verdict under the key. */
  ghost predicate LastStored(reqs: seq<Request>, n: nat, i: int, key: Key) {
    && 0 <= i < n <= |reqs| && Stores(reqs, i, key)
    && forall k | i < k < n :: !Stores(reqs, k, key)
  }

  predicate Stores(reqs: seq<Request>, i: nat, key: Key)
    requires i < |reqs|
  {
    KeyOf(reqs[i]) == key && WasStored(At(reqs, i))
  }

  ghost predicate SomeStored(reqs: seq<Request>, n: nat, key: Key) { exists i :: LastStored(reqs, n, i, key) }

  predicate IsEntry(store: map<Key, Verdict>, key: Key, v: Verdict) {
    key in store && v.record.Some? && store[key] == CacheEntry(v)
  }

  /** The key's entry is what the last of n evaluations to store it returned. */
  ghost predicate HoldsLast(store: map<Key, Verdict>, reqs: seq<Request>, n: nat, key: Key) {
    && (key in store <==> SomeStored(reqs, n, key))
    && (forall i | LastStored(reqs, n, i, key) :: IsEntry(store, key, At(reqs, i)))
  }

  lemma {:induction false} StoreIsLastStored(reqs: seq<Request>, n: nat, key: Key)
    requires n <= |reqs|
    ensures HoldsLast(Run(EMPTY, reqs[..n]).store, reqs, n, key)
    decreases n
  {
    if n > 0 {
      hide *;
      StoreIsLastStored(reqs, n - 1, key);
      StoreStep(reqs, n, key);
    } else {
      hide At, Review;
      assert Run(EMPTY, reqs[..0]) == EMPTY;
    }
  }

  lemma StoreStep(reqs: seq<Request>, n: nat, key: Key)
    requires 0 < n <= |reqs| && HoldsLast(Run(EMPTY, reqs[..n - 1]).store, reqs, n - 1, key)
    ensures HoldsLast(Run(EMPTY, reqs[..n]).store, reqs, n, key)
  {
    RunExtends(reqs, n - 1);
    ReviewStores(Run(EMPTY, reqs[..n - 1]), reqs[n - 1]);
    assert At(reqs, n - 1) == Review(Run(EMPTY, reqs[..n - 1]), reqs[n - 1]).1;
    hide Review, Run, CacheEntry, At, Asks, IsAnswer;
    LastStoredStep(reqs, n, key);
    hide LastStored;
  }

  lemma LastStoredStep(reqs: seq<Request>, n: nat, key: Key)
    requires 0 < n <= |reqs|
    ensures forall i :: LastStored(reqs, n, i, key) <==>
                        if Stores(reqs, n - 1, key) then i == n - 1 else LastStored(reqs, n - 1, i, key)
    ensures SomeStored(reqs, n, key) <==> Stores(reqs, n - 1, key) || SomeStored(reqs, n - 1, key)
  {
    hide Stores;
    if Stores(reqs, n - 1, key) {
      assert LastStored(reqs, n, n - 1, key);
    } else if SomeStored(reqs, n - 1, key) {
      var i :| LastStored(reqs, n - 1, i, key);
      assert LastStored(reqs, n, i, key);
    }
  }

  /** A stored verdict is cacheable, and is the model's answer to its request. */
  lemma StoredIsAnswer(reqs: seq<Request>, i: nat, key: Key)
    requires i < |reqs| && Stores(reqs, i, key)
    ensures IsAnswer(At(reqs, i), reqs[i]) && Cacheable(At(reqs, i))
  {
    ReviewStores(Run(EMPTY, reqs[..i]), reqs[i]);
    hide Review, Run, VerdictReason;
  }

  /**
   Starting from an empty cache, after any evaluations in any modes, a key has an entry exactly
   when some evaluation stored one, and the entry is then the verdict that the last of them
   returned, which is the answer the model gave to that very configuration and input.
   */
  lemma StoredEntriesAreGenuine(reqs: seq<Request>, key: Key)
    ensures HoldsLast(Run(EMPTY, reqs).store, reqs, |reqs|, key)
    ensures forall i | LastStored(reqs, |reqs|, i, key) :: IsAnswer(At(reqs, i), reqs[i]) && Cacheable(At(reqs, i))
  {
    hide Run, At, IsAnswer, Cacheable, Stores;
    assert reqs[..|reqs|] == reqs;
    StoreIsLastStored(reqs, |reqs|, key);
    forall i | LastStored(reqs, |reqs|, i, key) ensures IsAnswer(At(reqs, i), reqs[i]) && Cacheable(At(reqs, i)) {
      StoredIsAnswer(reqs, i, key);
    }
  }

  // ---- Reading modes ----

  /** An entry of the store serves every later review of its key whose read succeeds. */
  lemma StoredEntryIsServed(reqs: seq<Request>, req: Request)
    requires Reads(req.mode) && req.early.NotEarly? && !req.getFails
    requires KeyOf(req) in Run(EMPTY, reqs).store
    ensures var st := Run(EMPTY, reqs);
            var entry := st.store[KeyOf(req)];
            var (after, v) := Review(st, req);
            && after == st.(stats := st.stats.(hits := st.stats.hits + 1))
            && v.status == entry.status && v.passed == entry.passed && v.reason == VerdictReason(entry.reason)
            && v.record.Some? && v.record.value.status.Hit?
  {
    StoreIsUsable(reqs, req);
    hide Run;
    EntryIsServed(Run(EMPTY, reqs), req);
  }

  lemma StoreIsUsable(reqs: seq<Request>, req: Request)
    requires KeyOf(req) in Run(EMPTY, reqs).store && !req.getFails
    ensures Serves(Run(EMPTY, reqs).store, req)
  {
    hide Run, At, VerdictReason, LastStored;
    StoredEntriesAreGenuine(reqs, KeyOf(req));
    var i :| LastStored(reqs, |reqs|, i, KeyOf(req));
    SameKey(reqs, |reqs|, i, KeyOf(req));
  }

  lemma SameKey(reqs: seq<Request>, n: nat, i: int, key: Key)
    requires LastStored(reqs, n, i, key)
    ensures 0 <= i < |reqs| && KeyOf(reqs[i]) == key && Stores(reqs, i, key)
  {
    hide At;
  }

  lemma EntryIsServed(st: State, req: Request)
    requires Reads(req.mode) && req.early.NotEarly? && Serves(st.store, req)
    ensures var entry := st.store[KeyOf(req)];
            var (after, v) := Review(st, req);
            && after == st.(stats := st.stats.(hits := st.stats.hits + 1))
            && v.status == entry.status && v.passed == entry.passed && v.reason == VerdictReason(entry.reason)
            && v.record.Some? && v.record.value.status.Hit?
  {
    hide VerdictReason;
    hide Printable;
    hide CallAndStore;
  }

  /** The served reason is the stored one, exactly when the stored one is not 2049 or 2050 bytes. */
  lemma ServedReason(reqs: seq<Request>, key: Key)
    requires key in Run(EMPTY, reqs).store
    ensures var stored := Run(EMPTY, reqs).store[key].reason; VerdictReason(stored) == stored <==> Survives(stored)
  {
    hide Run, At, VerdictReason, Survives, LastStored;
    StoredEntriesAreGenuine(reqs, key);
    var i :| LastStored(reqs, |reqs|, i, key);
    SameKey(reqs, |reqs|, i, key);
    AnswerSurvives(reqs[i].reply.raw);
  }

  lemma AnswerSurvives(raw: string)
    ensures VerdictReason(VerdictReason(raw)) == VerdictReason(raw) <==> Survives(VerdictReason(raw))
  {
    hide VerdictReason, ByteLen;
    ReasonRepeats(raw);
  }

  predicate Survives(reason: string) { ByteLen(reason) <= MAX_REASON_BYTES || ByteLen(reason) == MAX_REASON_BYTES + 3 }

  /**
   replay-strict never calls the model and never writes, so neither the model's reply nor a broken
   write can matter; it returns the entry's verdict, and an error exactly when it cannot be served.
   */
  lemma ReplayStrictOnlyReads(st: State, req: Request)
    requires req.mode.ReplayStrict?
    ensures var (after, v) := Review(st, req);
            && after.store == st.store && after.calls == st.calls
            && after.stats.replaced == st.stats.replaced && after.stats.writeErrors == st.stats.writeErrors
            && (v.status.Error? <==> !(req.early.NotEarly? && Serves(st.store, req)))
            && (!v.status.Error? ==>
                  var entry := st.store[KeyOf(req)];
                  v.status == entry.status && v.passed == entry.passed && v.reason == VerdictReason(entry.reason))
    ensures forall reply, fails :: Review(st, req.(reply := reply, putFails := fails)) == Review(st, req)
  {
    hide VerdictReason;
    hide Printable;
  }

  lemma {:induction false} ReplayStrictRunOnlyReads(reqs: seq<Request>, n: nat, m: nat)
    requires n <= m <= |reqs| && forall k | n <= k < m :: reqs[k].mode.ReplayStrict?
    ensures var was, now := Run(EMPTY, reqs[..n]), Run(EMPTY, reqs[..m]);
            now.store == was.store && now.calls == was.calls
    decreases m
  {
    if n < m {
      ReplayStrictRunOnlyReads(reqs, n, m - 1);
      RunExtends(reqs, m - 1);
      ReplayStrictOnlyReads(Run(EMPTY, reqs[..m - 1]), reqs[m - 1]);
    }
  }

  /** v repeats an earlier verdict: the same decision, and the same reason exactly when that survives cleaning. */
  predicate Repeats(v: Verdict, earlier: Verdict) {
    && v.status == earlier.status && v.passed == earlier.passed && v.reason == VerdictReason(earlier.reason)
    && (v.reason == earlier.reason <==> Survives(earlier.reason))
  }

  /**
   Record, then replay. Take any run from an empty cache whose evaluations from n on are
   replay-strict. None of those calls the model or changes the store. Each is an error exactly when
   it fails early, its read fails or nothing was stored under its key before n; otherwise it
   repeats the verdict that the last evaluation to store its key returned, which was the model's
   own answer.
   */
  lemma {:induction false} RecordThenReplay(reqs: seq<Request>, n: nat, j: nat)
    requires n <= j < |reqs| && forall k | n <= k <= j :: reqs[k].mode.ReplayStrict?
    ensures var was, now := Run(EMPTY, reqs[..n]), Run(EMPTY, reqs[..j + 1]);
            now.store == was.store && now.calls == was.calls
    ensures At(reqs, j).status.Error? <==>
              !reqs[j].early.NotEarly? || reqs[j].getFails || !SomeStored(reqs, n, KeyOf(reqs[j]))
    ensures !At(reqs, j).status.Error? ==>
              forall i | LastStored(reqs, n, i, KeyOf(reqs[j])) ::
                Repeats(At(reqs, j), At(reqs, i)) && IsAnswer(At(reqs, i), reqs[i])
  {
    hide Run, At, Review, KeyOf, Stores, IsAnswer, Repeats, HoldsLast, SomeStored;
    ReplayStrictRunOnlyReads(reqs, n, j);
    ReplayStrictRunOnlyReads(reqs, n, j + 1);
    StoreIsLastStored(reqs, n, KeyOf(reqs[j]));
    ReplayServes(reqs, n, j);
    forall i | LastStored(reqs, n, i, KeyOf(reqs[j]))
      ensures IsAnswer(At(reqs, i), reqs[i]) && (!At(reqs, j).status.Error? ==> Repeats(At(reqs, j), At(reqs, i)))
    {
      SameKey(reqs, n, i, KeyOf(reqs[j]));
      StoredIsAnswer(reqs, i, KeyOf(reqs[j]));
      ReplayRepeats(reqs, n, j, i);
    }
  }

  /** When a replay is served. */
  lemma ReplayServes(reqs: seq<Request>, n: nat, j: nat)
    requires n <= j < |reqs| && reqs[j].mode.ReplayStrict?
    requires HoldsLast(Run(EMPTY, reqs[..j]).store, reqs, n, KeyOf(reqs[j]))
    ensures At(reqs, j).status.Error? <==>
              !reqs[j].early.NotEarly? || reqs[j].getFails || !SomeStored(reqs, n, KeyOf(reqs[j]))
  {
    var st := Run(EMPTY, reqs[..j]);
    ReplayStrictOnlyReads(st, reqs[j]);
    hide Run, Review, SomeStored, Usable;
    if KeyOf(reqs[j]) in st.store && !reqs[j].getFails {
      StoreIsUsable(reqs[..j], reqs[j]);
    }
  }

  /** What a served replay returns. */
  lemma ReplayRepeats(reqs: seq<Request>, n: nat, j: nat, i: nat)
    requires n <= j < |reqs| && reqs[j].mode.ReplayStrict? && i < |reqs| && LastStored(reqs, n, i, KeyOf(reqs[j]))
    requires HoldsLast(Run(EMPTY, reqs[..j]).store, reqs, n, KeyOf(reqs[j])) && IsAnswer(At(reqs, i), reqs[i])
    ensures !At(reqs, j).status.Error? ==> Repeats(At(reqs, j), At(reqs, i))
  {
    var st, req := Run(EMPTY, reqs[..j]), reqs[j];
    ReplayStrictOnlyReads(st, req);
    assert At(reqs, j) == Review(st, req).1;
    hide Run, Review, At, Usable, VerdictReason, Survives, LastStored;
    assert IsEntry(st.store, KeyOf(req), At(reqs, i));
    AnswerSurvives(reqs[i].reply.raw);
  }

  /** Whatever is stored, only a consistent pass or fail for this configuration and input is ever served. */
  lemma OnlyUsableIsServed(st: State, req: Request)
    ensures var v := Review(st, req).1;
            && (v.passed <==> v.status.Pass?)
            && (v.record.Some? && v.record.value.status.Hit? ==>
                  && KeyOf(req) in st.store && st.store[KeyOf(req)].record.Some?
                  && var entry := st.store[KeyOf(req)];
                     && (entry.status.Pass? || entry.status.Fail?) && (entry.passed <==> entry.status.Pass?)
                     && (entry.record.value.parse.ParsedOnce? || entry.record.value.parse.ParsedSame?)
                     && entry.record.value.config == req.config && entry.record.value.input == req.input)
  {
    hide VerdictReason;
    hide Printable;
  }

  // ---- The same over the requests alone ----

  /** What a mode does to the store: live and replay-strict nothing, the others what they could keep. */
  lemma StoreByMode(st: State, req: Request)
    ensures var (after, v) := Review(st, req);
            && (req.mode.Live? || req.mode.ReplayStrict? ==> after.store == st.store)
            && (req.mode.Recording? && Keeps(req) ==> IsEntry(after.store, KeyOf(req), v) && IsAnswer(v, req))
            && (req.mode.ReadThrough? && Keeps(req) && !Serves(st.store, req) ==>
                  IsEntry(after.store, KeyOf(req), v) && IsAnswer(v, req))
            && (req.mode.ReadThrough? && Serves(st.store, req) ==> after.store == st.store && after.calls == st.calls)
            && (forall key | key in st.store :: key in after.store)
            && (forall key | key != KeyOf(req) :: key in after.store <==> key in st.store)
  {
    ReviewStores(st, req);
    hide Review;
    hide IsAnswer;
  }

  ghost predicate SomeKept(reqs: seq<Request>, n: nat, key: Key)
    requires n <= |reqs|
  {
    exists i | 0 <= i < n :: Keeps(reqs[i]) && KeyOf(reqs[i]) == key
  }

  /** A key has an entry exactly when some request for it was recording or read-through, answered and written. */
  lemma {:induction false} StoredIffKept(reqs: seq<Request>, n: nat, key: Key)
    requires n <= |reqs|
    ensures key in Run(EMPTY, reqs[..n]).store <==> SomeKept(reqs, n, key)
    decreases n
  {
    if n == 0 {
      assert Run(EMPTY, reqs[..0]) == EMPTY;
    } else {
      hide Review, Run, IsAnswer, Usable;
      var st, req := Run(EMPTY, reqs[..n - 1]), reqs[n - 1];
      StoredIffKept(reqs, n - 1, key);
      RunExtends(reqs, n - 1);
      StoreByMode(st, req);
      ReviewStores(st, req);
      assert SomeKept(reqs, n, key) <==> SomeKept(reqs, n - 1, key) || (Keeps(req) && KeyOf(req) == key);
    }
  }

  /** A later evaluation that could replace a recorded answer: recording, or read-through with a broken read. */
  predicate Replaces(req: Request) { Keeps(req) && (req.mode.Recording? || req.getFails) }

  /** A recorded answer stays until it is replaced. */
  lemma {:induction false} RecordedStays(reqs: seq<Request>, n: nat, i: nat)
    requires i < n <= |reqs| && reqs[i].mode.Recording? && Keeps(reqs[i])
    requires forall k | i < k < n && KeyOf(reqs[k]) == KeyOf(reqs[i]) :: !Replaces(reqs[k])
    ensures LastStored(reqs, n, i, KeyOf(reqs[i]))
  {
    hide Run, Review, IsAnswer, VerdictReason;
    var key := KeyOf(reqs[i]);
    ReviewStores(Run(EMPTY, reqs[..i]), reqs[i]);
    forall k | i < k < n ensures !Stores(reqs, k, key) {
      if KeyOf(reqs[k]) == key {
        ReviewStores(Run(EMPTY, reqs[..k]), reqs[k]);
        StoredIffKept(reqs, k, key);
        assert SomeKept(reqs, k, key);
        if !reqs[k].getFails {
          StoreIsUsable(reqs[..k], reqs[k]);
        }
      }
    }
  }

  /**
   Record, then replay, over the requests alone. A replay-strict evaluation from n on is an error
   exactly when it fails early, its read fails, or no earlier request for its key was recording or
   read-through, answered and written. If request i recorded an answer that none before n replaced,
   the replay has that answer's decision, and its reason when that survives cleaning.
   */
  lemma {:induction false} RecordedIsReplayed(reqs: seq<Request>, n: nat, j: nat)
    requires n <= j < |reqs| && forall k | n <= k <= j :: reqs[k].mode.ReplayStrict?
    ensures At(reqs, j).status.Error? <==>
              !reqs[j].early.NotEarly? || reqs[j].getFails || !SomeKept(reqs, n, KeyOf(reqs[j]))
    ensures forall i | 0 <= i < n && IsRecorded(reqs, n, i) && KeyOf(reqs[i]) == KeyOf(reqs[j]) ::
              !At(reqs, j).status.Error? ==>
                && At(reqs, j).passed == reqs[i].reply.pass
                && At(reqs, j).status == (if reqs[i].reply.pass then Pass else Fail)
                && var reason := VerdictReason(reqs[i].reply.raw);
                   At(reqs, j).reason == reason <==> Survives(reason)
  {
    hide Run, Review, At, VerdictReason, Survives, Stores;
    RecordThenReplay(reqs, n, j);
    StoredIffKept(reqs, n, KeyOf(reqs[j]));
    StoreIsLastStored(reqs, n, KeyOf(reqs[j]));
    forall i | 0 <= i < n && IsRecorded(reqs, n, i) && KeyOf(reqs[i]) == KeyOf(reqs[j])
      ensures LastStored(reqs, n, i, KeyOf(reqs[j]))
    {
      RecordedStays(reqs, n, i);
    }
  }

  /** Request i recorded an answer, and no later one before n replaces it. */
  ghost predicate IsRecorded(reqs: seq<Request>, n: nat, i: nat)
    requires i < n <= |reqs|
  {
    && reqs[i].mode.Recording? && Keeps(reqs[i])
    && forall k | i < k < n && KeyOf(reqs[k]) == KeyOf(reqs[i]) :: !Replaces(reqs[k])
  }

  // ---- Counters ----

  /** CacheStats.Summary reports misses as those not stored plus those stored. */
  function SummaryMisses(s: Stats): nat { s.misses + s.stored }

  /** A model call leaves a miss, with at most one write error, or a stored verdict. */
  lemma CallCounts(st: State, req: Request, key: Key, rec: Record)
    requires rec.status.Miss?
    ensures var (after, v) := CallAndStore(st, req, key, rec);
            && v.record.Some?
            && (|| (v.record.value.status.Stored? && after.stats == st.stats)
                || (v.record.value.status.Miss?
                    && st.stats.writeErrors <= after.stats.writeErrors <= st.stats.writeErrors + 1
                    && after.stats == st.stats.(writeErrors := after.stats.writeErrors)))
  {
    hide VerdictReason;
  }

  lemma ReviewCounts(st: State, req: Request)
    ensures var (after, v) := Review(st, req);
            var was, now := st.stats, after.stats;
            && now.hits + SummaryMisses(now) + now.bypassed
               == was.hits + SummaryMisses(was) + was.bypassed + (if v.record.Some? then 1 else 0)
            && now.replaced - was.replaced <= SummaryMisses(now) - SummaryMisses(was)
            && (now.stored + now.writeErrors) - (was.stored + was.writeErrors) <= SummaryMisses(now)
                    - SummaryMisses(was)
  {
    ReviewedCases(st, req);
    CallCounts(Marked(st, req), req, KeyOf(req), Keyed(req));
    var (after, v) := Reviewed(st, req);
    hide Reviewed, Asks, CallAndStore, VerdictReason, Printable, Counted;
    CountedOnce(after.stats, v);
  }

  /** Counting a verdict with a record moves one counter, and no other count. */
  lemma CountedOnce(s: Stats, v: Verdict)
    ensures var c := Counted(s, v);
            var known := v.record.Some? && !v.record.value.status.Unset?;
            && c.hits + SummaryMisses(c) + c.bypassed == s.hits + SummaryMisses(s) + s.bypassed
                   + (if known then 1 else 0)
            && c.replaced == s.replaced && c.writeErrors == s.writeErrors
            && c.stored == s.stored + (if WasStored(v) then 1 else 0)
            && SummaryMisses(c) >= SummaryMisses(s)
            && (known && (v.record.value.status.Miss? || WasStored(v)) ==> SummaryMisses(c) == SummaryMisses(s) + 1)
  {}

  function One(b: bool): nat { if b then 1 else 0 }

  /** Which counters one evaluation moves, by what the request and the store are like. */
  ghost predicate MovesCounters(was: Stats, now: Stats, store: map<Key, Verdict>, req: Request) {
    var keyed := req.early.NotEarly? && !req.mode.Live?;
    var served := keyed && !req.mode.Recording? && Serves(store, req);
    var found := req.getFails || KeyOf(req) in store;
    && now.hits == was.hits + One(served)
    && now.stored == was.stored + One(keyed && !served && !req.mode.ReplayStrict? && Keeps(req))
    && now.misses == was.misses + One(keyed && !served && !Keeps(req))
    && now.bypassed == was.bypassed + One(req.early.AfterRecord? || (req.early.NotEarly? && req.mode.Live?))
    && now.replaced == was.replaced + One(keyed && req.mode.ReadThrough? && found && !served)
    && now.writeErrors == was.writeErrors
       + One(keyed && !served && !req.mode.ReplayStrict? && req.reply.Answer? && req.putFails)
  }

  lemma CountersByRequest(st: State, req: Request)
    ensures MovesCounters(st.stats, Review(st, req).0.stats, st.store, req)
  {
    if Asks(st, req) && !req.mode.Live? {
      AskedCounters(st, req);
    } else if req.early.NotEarly? && !req.mode.Live? {
      UnaskedCounters(st, req);
    } else {
      hide VerdictReason, Printable, Serves, CallAndStore, LookUp;
    }
  }

  lemma UnaskedCounters(st: State, req: Request)
    requires !Asks(st, req) && req.early.NotEarly? && !req.mode.Live?
    ensures MovesCounters(st.stats, Review(st, req).0.stats, st.store, req)
  {
    hide VerdictReason, Printable, Usable, CallAndStore;
    if Serves(st.store, req) {
      EntryIsServed(st, req);
      hide Review, Serves;
    }
  }

  lemma AskedCounters(st: State, req: Request)
    requires Asks(st, req) && !req.mode.Live?
    ensures MovesCounters(st.stats, Review(st, req).0.stats, st.store, req)
  {
    ReviewedCases(st, req);
    hide VerdictReason, Printable, Usable, Reviewed;
  }

  /** Conservation over any run: every verdict with a record is one hit, miss or bypass. */
  lemma {:induction false} SummaryIsConserved(reqs: seq<Request>)
    ensures var s := Run(EMPTY, reqs).stats;
            && s.hits + SummaryMisses(s) + s.bypassed == Carrying(EMPTY, reqs)
            && s.replaced <= SummaryMisses(s)
            && s.stored + s.writeErrors <= SummaryMisses(s)
  {
    if reqs != [] {
      SummaryIsConserved(reqs[..|reqs| - 1]);
      hide Review;
      ReviewCounts(Run(EMPTY, reqs[..|reqs| - 1]), reqs[|reqs| - 1]);
    }
  }
}
