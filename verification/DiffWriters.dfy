/**
 Models the writers git's output streams into (eval/judge/gitdiff.go): gitlinkScanner,
 cappedBuffer and headWriter. Each must end in the same state however the stream is split
 into Write calls.
 */
module DiffWriters {
  import opened Bytes

  function Flatten(chunks: seq<Text>): (all: Text) {
    if chunks == [] then [] else chunks[0] + Flatten(chunks[1..])
  }

  /** The offset of the first newline, or |s|. */
  function IndexNewline(s: Text): (i: nat)
    ensures i <= |s| && (i < |s| ==> s[i] == NEWLINE)
    ensures forall k :: 0 <= k < i ==> s[k] != NEWLINE
  {
    if s == [] || s[0] == NEWLINE then 0 else 1 + IndexNewline(s[1..])
  }

  /** The newline-separated lines of s; the last is what follows the last newline. */
  function Lines(s: Text): (lines: seq<Text>)
    ensures |lines| > 0
    decreases |s|
  {
    var i := IndexNewline(s);
    if i == |s| then [s] else [s[..i]] + Lines(s[i + 1..])
  }

  // ---- gitlinkScanner ----

  const MODE_PREFIX := 15

  /** A raw diff line whose source or destination mode is 160000. */
  predicate GitlinkLine(line: Text) {
    && |line| >= MODE_PREFIX
    && (line[..8] == Ascii(":160000 ") || line[8..15] == Ascii("160000 "))
  }

  datatype ScanState = ScanState(line: Text, linked: bool)

  function Keep(s: Text, limit: int): (head: Text) {
    if limit <= 0 then [] else if limit < |s| then s[..limit] else s
  }

  function Checked(st: ScanState): ScanState {
    ScanState([], st.linked || GitlinkLine(st.line))
  }

  /** The scanner's state after reading p in one Write. */
  function Feed(st: ScanState, p: Text): (r: ScanState)
    decreases |p|
  {
    var i := IndexNewline(p);
    var grown := st.(line := Keep(st.line + p[..i], MODE_PREFIX));
    if i == |p| then grown else Feed(Checked(grown), p[i + 1..])
  }

  function FeedAll(st: ScanState, chunks: seq<Text>): (r: ScanState)
    decreases |chunks|
  {
    if chunks == [] then st else FeedAll(Feed(st, chunks[0]), chunks[1..])
  }

  class GitlinkScanner {
    var line: Text
    var linked: bool

    constructor ()
      ensures State() == ScanState([], false)
    {
      line, linked := [], false;
    }

    function State(): ScanState
      reads this
    {
      ScanState(line, linked)
    }

    method Write(p: Text) returns (n: nat)
      requires |line| <= MODE_PREFIX
      modifies this
      ensures n == |p| && |line| <= MODE_PREFIX
      ensures State() == Feed(old(State()), p)
    {
      hide IndexNewline;
      hide GitlinkLine;
      hide Checked;
      n := |p|;
      var rest := p;
      while |rest| > 0
        invariant |line| <= MODE_PREFIX
        invariant Feed(State(), rest) == Feed(old(State()), p)
        decreases |rest|
      {
        var i := IndexNewline(rest);
        var chunk := rest[..i];
        ghost var before := State();
        var room := MODE_PREFIX - |line|;
        if room > 0 {
          line := line + chunk[..if room < |chunk| then room else |chunk|];
        }
        assert line == Keep(before.line + chunk, MODE_PREFIX);
        if i == |rest| {
          assert Feed(before, rest) == State();
          return;
        }
        Check();
        rest := rest[i + 1..];
      }
      assert Feed(State(), []) == State() by { assert State().line + [] == State().line; }
    }

    method Check()
      modifies this
      ensures State() == Checked(old(State())) && line == []
      requires |line| <= MODE_PREFIX
    {
      if |line| == MODE_PREFIX && (line[..8] == Ascii(":160000 ") || line[8..] == Ascii("160000 ")) {
        linked := true;
      }
      line := [];
    }

    method Found() returns (found: bool)
      requires |line| <= MODE_PREFIX
      modifies this
      ensures found <==> Checked(old(State())).linked
    {
      if |line| > 0 {
        Check();
      }
      return linked;
    }
  }

  lemma KeepAgain(a: Text, b: Text, limit: int)
    ensures Keep(Keep(a, limit) + b, limit) == Keep(a + b, limit)
  {}

  /** A chunk without a newline only grows the line. */
  lemma FeedUnended(st: ScanState, p: Text, q: Text)
    requires IndexNewline(p) == |p|
    ensures Feed(st, p + q) == Feed(Feed(st, p), q)
  {
    hide Checked;
    hide Keep;
    hide IndexNewline;
    var j := IndexNewline(q);
    NewlineOfConcat(p, q);
    assert p[..|p|] == p && (p + q)[..|p| + j] == p + q[..j];
    KeepAgain(st.line + p, q[..j], MODE_PREFIX);
    assert st.line + (p + q[..j]) == st.line + p + q[..j];
    if j < |q| {
      assert (p + q)[|p| + j + 1..] == q[j + 1..];
    }
  }

  lemma {:induction false} FeedOfConcat(st: ScanState, p: Text, q: Text)
    ensures Feed(st, p + q) == Feed(Feed(st, p), q)
    decreases |p|
  {
    hide Checked;
    hide Keep;
    hide IndexNewline;
    var i := IndexNewline(p);
    if i == |p| {
      FeedUnended(st, p, q);
    } else {
      NewlineOfConcat(p, q);
      assert (p + q)[..i] == p[..i] && (p + q)[i + 1..] == p[i + 1..] + q;
      FeedOfConcat(Checked(st.(line := Keep(st.line + p[..i], MODE_PREFIX))), p[i + 1..], q);
    }
  }

  lemma {:induction false} NewlineOfConcat(p: Text, q: Text)
    ensures IndexNewline(p + q) == if IndexNewline(p) < |p| then IndexNewline(p) else |p| + IndexNewline(q)
    decreases |p|
  {
    if p == [] {
      assert p + q == q;
    } else {
      assert (p + q)[1..] == p[1..] + q;
      NewlineOfConcat(p[1..], q);
    }
  }

  /** Splitting the stream into Write calls does not change where the scanner ends. */
  lemma {:induction false} FeedIgnoresChunking(st: ScanState, chunks: seq<Text>)
    requires |st.line| <= MODE_PREFIX
    ensures FeedAll(st, chunks) == Feed(st, Flatten(chunks))
    decreases |chunks|
  {
    if chunks == [] {
      assert st.line + [] == st.line;
    } else {
      FeedBounded(st, chunks[0]);
      FeedIgnoresChunking(Feed(st, chunks[0]), chunks[1..]);
      FeedOfConcat(st, chunks[0], Flatten(chunks[1..]));
    }
  }

  lemma {:induction false} FeedBounded(st: ScanState, p: Text)
    ensures |Feed(st, p).line| <= MODE_PREFIX
    decreases |p|
  {
    hide IndexNewline;
    hide GitlinkLine;
    var i := IndexNewline(p);
    if i < |p| {
      FeedBounded(Checked(st.(line := Keep(st.line + p[..i], MODE_PREFIX))), p[i + 1..]);
    }
  }

  predicate SomeGitlink(lines: seq<Text>) {
    exists k | 0 <= k < |lines| :: GitlinkLine(lines[k])
  }

  lemma {:induction false} FeedFindsGitlinks(s: Text, linked: bool)
    ensures Checked(Feed(ScanState([], linked), s)).linked <==> linked || SomeGitlink(Lines(s))
    decreases |s|
  {
    hide IndexNewline;
    hide SomeGitlink;
    hide GitlinkLine;
    hide Keep;
    var i := IndexNewline(s);
    var line := s[..i];
    assert [] + line == line;
    GitlinkHead(line);
    if i == |s| {
      assert line == s && Lines(s) == [s] + [];
      SomeGitlinkCons(s, []);
      NoGitlink();
    } else {
      var rest := Lines(s[i + 1..]);
      FeedFindsGitlinks(s[i + 1..], linked || GitlinkLine(line));
      assert Lines(s) == [line] + rest;
      SomeGitlinkCons(line, rest);
    }
  }

  /** The first bytes of a line decide. */
  /** On a line as git writes it, the two modes decide. */
  lemma GitlinkMeaning(src: Text, dst: Text, rest: Text)
    requires |src| == 6 && |dst| == 6
    ensures GitlinkLine(Ascii(":") + src + Ascii(" ") + dst + Ascii(" ") + rest) <==>
              src == Ascii("160000") || dst == Ascii("160000")
  {
    var line := Ascii(":") + src + Ascii(" ") + dst + Ascii(" ") + rest;
    assert line[..8] == Ascii(":") + src + Ascii(" ") && line[8..15] == dst + Ascii(" ");
    assert Ascii(":160000 ") == Ascii(":") + Ascii("160000") + Ascii(" ")
               && Ascii("160000 ") == Ascii("160000") + Ascii(" ");
    assert (Ascii(":") + src + Ascii(" "))[1..7] == src && (dst + Ascii(" "))[..6] == dst;
    assert (Ascii(":") + Ascii("160000") + Ascii(" "))[1..7] == Ascii("160000");
    assert (Ascii("160000") + Ascii(" "))[..6] == Ascii("160000");
  }

  lemma GitlinkHead(line: Text)
    ensures GitlinkLine(Keep(line, MODE_PREFIX)) <==> GitlinkLine(line)
  {
    if |line| > MODE_PREFIX {
      assert line[..15][..8] == line[..8] && line[..15][8..15] == line[8..15];
    }
  }

  lemma NoGitlink()
    ensures !SomeGitlink([])
  {}

  lemma SomeGitlinkCons(line: Text, rest: seq<Text>)
    ensures SomeGitlink([line] + rest) <==> GitlinkLine(line) || SomeGitlink(rest)
  {
    var all := [line] + rest;
    if SomeGitlink(rest) {
      var k :| 0 <= k < |rest| && GitlinkLine(rest[k]);
      assert GitlinkLine(all[k + 1]);
    }
    if GitlinkLine(line) {
      assert GitlinkLine(all[0]);
    }
  }

  /** Whatever the chunks, found() answers whether some whole line of the stream is a gitlink's. */
  lemma ScannerFindsGitlinks(chunks: seq<Text>)
    ensures Checked(FeedAll(ScanState([], false), chunks)).linked <==> SomeGitlink(Lines(Flatten(chunks)))
  {
    FeedIgnoresChunking(ScanState([], false), chunks);
    FeedFindsGitlinks(Flatten(chunks), false);
  }

  // ---- headWriter and cappedBuffer ----


  /** hashed stands for the running SHA-256, which depends on the bytes written alone. */
  class HeadWriter {
    const limit: int
    var head: Text
    var total: nat
    var hashed: Text

    constructor (limit: int)
      ensures this.limit == limit && head == [] && total == 0 && hashed == []
    {
      this.limit, head, total, hashed := limit, [], 0, [];
    }

    /** The state every sequence of writes of these bytes reaches. */
    predicate Holds(all: Text)
      reads this
    {
      head == Keep(all, limit) && total == |all| && hashed == all
    }

    method Write(ghost all: Text, p: Text) returns (n: nat)
      requires Holds(all)
      modifies this
      ensures n == |p| && Holds(all + p)
    {
      hashed := hashed + p;
      total := total + |p|;
      var room := limit - |head|;
      if room > 0 {
        head := head + p[..if room < |p| then room else |p|];
      }
      return |p|;
    }
  }

  class CappedBuffer {
    const limit: int
    var buf: Text

    constructor (limit: int)
      ensures this.limit == limit && buf == []
    {
      this.limit, buf := limit, [];
    }

    method Write(ghost all: Text, p: Text) returns (n: nat)
      requires buf == Keep(all, limit)
      modifies this
      ensures n == |p| && buf == Keep(all + p, limit)
    {
      var room := limit - |buf|;
      if room > 0 {
        buf := buf + p[..if room < |p| then room else |p|];
      }
      return |p|;
    }
  }
}
