/** The deduplication cache: rebuilt from the raw files, or brought up to date from their tail. */
module EvidenceCache {
  import opened Common
  import opened Text
  import opened EvidenceFiles

  datatype Kind = OrderSnapshot | ExportManifest | OtherKind

  /** The fields of one record that the cache reads. */
  datatype Rec = Rec(
    capturedAt: Text, kind: Kind, key: Text, fingerprint: Text, previous: Bytes, sha: Bytes)

  /** One complete line: not JSON, JSON but not an object, an object whose nested fields have the
      wrong shape, or a record. */
  datatype Parsed = NotJson | NotObject | Misshapen | Record(rec: Rec)

  datatype Cache = Cache(
    fingerprints: map<Text, Text>, count: nat, lastCapture: Text, lastExport: Text, lastSha: Bytes)

  function NoCache(): Cache { Cache(map[], 0, [], [], []) }

  function Or<T>(a: seq<T>, b: seq<T>): seq<T> {
    if |a| == 0 then b else a
  }

  /** A record read back into the cache. */
  function Applied(c: Cache, r: Rec): Cache {
    Cache(
      if r.kind == OrderSnapshot && r.fingerprint != [] then c.fingerprints[r.key := r.fingerprint] else c.fingerprints,
      c.count + 1,
      Or(r.capturedAt, c.lastCapture),
      if r.kind == ExportManifest then Or(r.capturedAt, c.lastExport) else c.lastExport,
      Or(r.sha, c.lastSha))
  }

  /** This fingerprint is the last one recorded under the key. */
  predicate Known(c: Cache, key: Text, fingerprint: Text) {
    key in c.fingerprints && c.fingerprints[key] == fingerprint
  }

  /** The complete lines of a file; an unfinished last line is not one of them. */
  function Lines(f: Bytes): (r: seq<Bytes>)
    ensures forall l | l in r :: EndsLine(l)
    decreases |f|
  {
    var end := LineEnd(f, 0);
    if f == [] || f[end - 1] != Newline() then [] else [f[..end]] + Lines(f[end..])
  }

  function AllLines(files: seq<Bytes>): seq<Bytes> {
    if files == [] then [] else AllLines(files[..|files| - 1]) + Lines(files[|files| - 1])
  }

  // ----- the two readers --------------------------------------------------------------------

  /** Rebuilding fails on anything that parses but is not a well-shaped object. */
  function Rebuilt(lines: seq<Bytes>, parse: Bytes -> Parsed, from: Cache): Option<Cache> {
    if lines == [] then Some(from)
    else
      match parse(lines[0])
      case NotJson => Rebuilt(lines[1..], parse, from)
      case NotObject => None
      case Misshapen => None
      case Record(r) => Rebuilt(lines[1..], parse, Applied(from, r))
  }

  /** Tail recovery passes over JSON that is not an object. */
  function Recovered(lines: seq<Bytes>, parse: Bytes -> Parsed, from: Cache): Option<Cache> {
    if lines == [] then Some(from)
    else
      match parse(lines[0])
      case NotJson => Recovered(lines[1..], parse, from)
      case NotObject => Recovered(lines[1..], parse, from)
      case Misshapen => None
      case Record(r) => Recovered(lines[1..], parse, Applied(from, r))
  }

  function RebuildAll(archives: seq<Bytes>, active: Bytes, parse: Bytes -> Parsed): Option<Cache> {
    Rebuilt(AllLines(archives + [active]), parse, NoCache())
  }

  // ----- lines ------------------------------------------------------------------------------

  lemma FirstLine(p: Bytes, q: Bytes)
    requires EndsLine(p)
    ensures LineEnd(p + q, 0) == LineEnd(p, 0)
  {
    FirstLineFrom(p, q, 0);
  }

  lemma {:induction false} FirstLineFrom(p: Bytes, q: Bytes, from: nat)
    requires EndsLine(p) && from < |p|
    ensures LineEnd(p + q, from) == LineEnd(p, from)
    decreases |p| - from
  {
    assert (p + q)[from] == p[from];
    if p[from] != Newline() {
      FirstLineFrom(p, q, from + 1);
    }
  }

  lemma FirstLineCut(p: Bytes, q: Bytes)
    requires EndsLine(p)
    ensures var end := LineEnd(p, 0);
      && LineEnd(p + q, 0) == end && p[end - 1] == (p + q)[end - 1] == Newline()
      && (p + q)[..end] == p[..end] && (p + q)[end..] == p[end..] + q
      && (p[end..] == [] || EndsLine(p[end..])) && |p[end..]| < |p|
  {
    hide LineEnd;
    FirstLine(p, q);
    var end := LineEnd(p, 0);
    if end < |p| {
      assert p[end..][|p[end..]| - 1] == p[|p| - 1];
    }
  }

  /** A file that starts with a complete line. */
  lemma LinesHead(f: Bytes, end: nat)
    requires f != [] && end == LineEnd(f, 0) && f[end - 1] == Newline()
    ensures Lines(f) == [f[..end]] + Lines(f[end..])
  {
    hide LineEnd;
  }

  lemma LinesOfNothing()
    ensures Lines([]) == []
  {
  }

  lemma LinesSplitHead(p: Bytes, q: Bytes, end: nat)
    requires EndsLine(p) && end == LineEnd(p, 0) && Lines(p[end..] + q) == Lines(p[end..]) + Lines(q)
    ensures Lines(p + q) == Lines(p) + Lines(q)
  {
    hide Lines, LineEnd, EndsLine;
    FirstLineCut(p, q);
    LinesHead(p, end);
    LinesHead(p + q, end);
    JoinThree([p[..end]], Lines(p[end..]), Lines(q));
  }

  /** A file cut at a line boundary has the lines of both parts. */
  lemma {:induction false} LinesSplit(p: Bytes, q: Bytes)
    requires p == [] || EndsLine(p)
    ensures Lines(p + q) == Lines(p) + Lines(q)
    decreases |p|
  {
    hide Lines, LineEnd;
    if p == [] {
      LinesOfNothing();
      assert p + q == q;
    } else {
      var end := LineEnd(p, 0);
      FirstLineCut(p, q);
      LinesSplit(p[end..], q);
      LinesSplitHead(p, q, end);
    }
  }

  lemma {:induction false} RebuiltSplit(a: seq<Bytes>, b: seq<Bytes>, parse: Bytes -> Parsed, from: Cache)
    ensures var first := Rebuilt(a, parse, from);
      Rebuilt(a + b, parse, from) == if first.None? then None else Rebuilt(b, parse, first.value)
  {
    if a == [] {
      assert a + b == b;
    } else {
      assert (a + b)[0] == a[0] && (a + b)[1..] == a[1..] + b;
      match parse(a[0]) {
        case NotJson => RebuiltSplit(a[1..], b, parse, from);
        case NotObject =>
        case Misshapen =>
        case Record(r) => RebuiltSplit(a[1..], b, parse, Applied(from, r));
      }
    }
  }

  lemma ActiveLast(archives: seq<Bytes>, active: Bytes)
    ensures AllLines(archives + [active]) == AllLines(archives) + Lines(active)
  {
    assert (archives + [active])[..|archives|] == archives;
  }

  lemma {:induction false} DropFirst(files: seq<Bytes>)
    requires files != []
    ensures AllLines(files) == Lines(files[0]) + AllLines(files[1..])
  {
    hide Lines;
    var n := |files| - 1;
    if n == 0 {
      assert files[..0] == [];
      assert files[1..] == [];
      assert [] + Lines(files[0]) == Lines(files[0]) + [];
    } else {
      DropFirst(files[..n]);
      assert files[..n][1..] == files[1..][..n - 1];
      assert files[1..][n - 1] == files[n] && |files[1..]| == n;
      JoinThree(Lines(files[0]), AllLines(files[..n][1..]), Lines(files[n]));
    }
  }

  lemma JoinThree(a: seq<Bytes>, b: seq<Bytes>, c: seq<Bytes>)
    ensures (a + b) + c == a + (b + c)
  {
  }

  lemma RebuildInTwo(archives: seq<Bytes>, active: Bytes, n: nat, parse: Bytes -> Parsed)
    requires Boundary(active, n)
    ensures var first := RebuildAll(archives, active[..n], parse);
      RebuildAll(archives, active, parse)
      == if first.None? then None else Rebuilt(Lines(active[n..]), parse, first.value)
  {
    hide Lines, Rebuilt, AllLines;
    var p, q := active[..n], active[n..];
    assert active == p + q;
    LinesSplit(p, q);
    ActiveLast(archives, active);
    ActiveLast(archives, p);
    assert AllLines(archives) + (Lines(p) + Lines(q)) == (AllLines(archives) + Lines(p)) + Lines(q);
    RebuiltSplit(AllLines(archives) + Lines(p), Lines(q), parse, NoCache());
  }

  // ----- recovery refines rebuilding --------------------------------------------------------

  predicate AllObjects(lines: seq<Bytes>, parse: Bytes -> Parsed) {
    forall l | l in lines :: parse(l) != NotObject
  }

  lemma {:induction false} ReadersAgree(lines: seq<Bytes>, parse: Bytes -> Parsed, from: Cache)
    ensures Rebuilt(lines, parse, from).Some? ==> Recovered(lines, parse, from) == Rebuilt(lines, parse, from)
    ensures Rebuilt(lines, parse, from).Some? ==> AllObjects(lines, parse)
    ensures AllObjects(lines, parse) ==> Recovered(lines, parse, from) == Rebuilt(lines, parse, from)
  {
    if lines != [] {
      assert lines == [lines[0]] + lines[1..];
      assert forall l | l in lines[1..] :: l in lines;
      match parse(lines[0]) {
        case NotJson => ReadersAgree(lines[1..], parse, from);
        case NotObject =>
        case Misshapen =>
        case Record(r) => ReadersAgree(lines[1..], parse, Applied(from, r));
      }
    }
  }

  lemma {:induction false} MisshapenIsUnread(lines: seq<Bytes>, parse: Bytes -> Parsed, from: Cache)
    ensures Recovered(lines, parse, from).None? <==> exists l :: l in lines && parse(l).Misshapen?
    ensures Recovered(lines, parse, from).None? ==> Rebuilt(lines, parse, from).None?
  {
    if lines != [] {
      assert lines == [lines[0]] + lines[1..];
      match parse(lines[0]) {
        case NotJson => MisshapenIsUnread(lines[1..], parse, from);
        case NotObject => MisshapenIsUnread(lines[1..], parse, from);
        case Misshapen => assert lines[0] in lines;
        case Record(r) => MisshapenIsUnread(lines[1..], parse, Applied(from, r));
      }
    }
  }

  /** Bringing a cache that was right at an earlier line boundary up to date from the tail gives what
      a full rebuild gives, exactly when no complete line of the tail is JSON other than an object, or
      one is an object of the wrong shape, which neither reader survives. */
  lemma RecoveryRefinesRebuild(archives: seq<Bytes>, active: Bytes, n: nat, parse: Bytes -> Parsed, cache: Cache)
    requires Boundary(active, n) && RebuildAll(archives, active[..n], parse) == Some(cache)
    ensures var tail := Lines(active[n..]);
      Recovered(tail, parse, cache) == RebuildAll(archives, active, parse)
      <==> AllObjects(tail, parse) || exists l :: l in tail && parse(l).Misshapen?
  {
    RebuildInTwo(archives, active, n, parse);
    ReadersAgree(Lines(active[n..]), parse, cache);
    MisshapenIsUnread(Lines(active[n..]), parse, cache);
    hide Lines, AllObjects, Rebuilt, Recovered;
  }

  // ----- the index --------------------------------------------------------------------------

  /** What was last flushed: the cache, the active file's length then, and the archives then. */
  datatype Index = Index(cache: Cache, bytes: Option<nat>, manifest: seq<Bytes>)

  /** The index is written after this many changes, or this many seconds after the last time. */
  const FLUSH_CHANGES := 10
  const FLUSH_SECONDS := 10

  predicate AnyEvidence(archives: seq<Bytes>, active: Bytes) {
    active != [] || exists a :: a in archives && a != []
  }

  /** The cache after a restart; None when reading the files raised. An index that could not be read
      is one without a length. */
  function Loaded(archives: seq<Bytes>, active: Bytes, index: Index, parse: Bytes -> Parsed): Option<Cache> {
    if !AnyEvidence(archives, active) then Some(NoCache())
    else if index.manifest != archives || index.bytes.None? || index.bytes.value > |active| then
      RebuildAll(archives, active, parse)
    else if index.bytes.value < |active| then
      if Boundary(active, index.bytes.value) then Recovered(Lines(active[index.bytes.value..]), parse, index.cache)
      else RebuildAll(archives, active, parse)
    else Some(index.cache)
  }

  /** The index was right when it was flushed, and the active file has only grown since. */
  ghost predicate WasRight(archives: seq<Bytes>, active: Bytes, index: Index, parse: Bytes -> Parsed) {
    index.bytes.Some? && index.manifest == archives && index.bytes.value <= |active| ==>
      RebuildAll(archives, active[..index.bytes.value], parse) == Some(index.cache)
  }

  /** Every restart ends with the cache of a full rebuild, whatever the throttled index had missed and
      whatever a crash left of the last line. */
  lemma RestartIsRebuild(archives: seq<Bytes>, active: Bytes, index: Index, parse: Bytes -> Parsed)
    requires WasRight(archives, active, index, parse)
    requires AllObjects(Lines(active), parse)
    ensures Loaded(archives, active, index, parse) == RebuildAll(archives, active, parse)
  {
    hide Lines, AllLines, Rebuilt, Recovered, AllObjects;
    if !AnyEvidence(archives, active) {
      NoEvidenceNoLines(archives, active);
      NothingRebuilt(parse);
    } else if index.manifest == archives && index.bytes.Some? && index.bytes.value <= |active| {
      var n := index.bytes.value;
      if n == |active| {
        assert active[..n] == active;
      } else if Boundary(active, n) {
        assert active == active[..n] + active[n..];
        LinesSplit(active[..n], active[n..]);
        SomeOfThem(Lines(active[..n]), Lines(active[n..]), parse);
        RecoveryRefinesRebuild(archives, active, n, parse, index.cache);
      }
    }
  }

  lemma NothingRebuilt(parse: Bytes -> Parsed)
    ensures Rebuilt([], parse, NoCache()) == Some(NoCache())
  {
  }

  lemma SomeOfThem(a: seq<Bytes>, b: seq<Bytes>, parse: Bytes -> Parsed)
    requires AllObjects(a + b, parse)
    ensures AllObjects(b, parse)
  {
    forall l | l in b ensures parse(l) != NotObject {
      assert l in a + b;
    }
  }

  lemma {:induction false} NoLines(archives: seq<Bytes>)
    requires forall a | a in archives :: a == []
    ensures AllLines(archives) == []
  {
    if archives != [] {
      var n := |archives| - 1;
      assert archives[n] in archives;
      forall a | a in archives[..n] ensures a == [] {
        assert a in archives;
      }
      NoLines(archives[..n]);
    }
  }

  lemma NoEvidenceNoLines(archives: seq<Bytes>, active: Bytes)
    requires !AnyEvidence(archives, active)
    ensures AllLines(archives + [active]) == []
  {
    NoLines(archives + [active]);
  }

  // ----- the hash chain ---------------------------------------------------------------------

  datatype Link = Link(previous: Bytes, sha: Bytes)

  /** The records that carry a hash, in file order. */
  function Links(lines: seq<Bytes>, parse: Bytes -> Parsed): seq<Link> {
    if lines == [] then []
    else
      var rest := Links(lines[..|lines| - 1], parse);
      match parse(lines[|lines| - 1])
      case Record(r) => if r.sha != [] then rest + [Link(r.previous, r.sha)] else rest
      case _ => rest
  }

  /** Every record names the hash of the record before it. */
  ghost predicate Contiguous(links: seq<Link>) {
    forall k | 0 < k < |links| :: links[k].previous == links[k - 1].sha
  }

  function LastSha(links: seq<Link>): Bytes {
    if links == [] then [] else links[|links| - 1].sha
  }

  lemma {:induction false} LinksSplit(a: seq<Bytes>, b: seq<Bytes>, parse: Bytes -> Parsed)
    ensures Links(a + b, parse) == Links(a, parse) + Links(b, parse)
  {
    if b == [] {
      assert a + b == a;
    } else {
      var n := |b| - 1;
      assert (a + b)[..|a| + n] == a + b[..n] && (a + b)[|a| + n] == b[n];
      LinksSplit(a, b[..n], parse);
    }
  }

  lemma LinksOne(line: Bytes, parse: Bytes -> Parsed)
    ensures Links([line], parse)
         == if parse(line).Record? && parse(line).rec.sha != [] then [Link(parse(line).rec.previous, parse(line).rec.sha)] else []
  {
    assert [line][..0] == [];
  }

  /** A rebuild ends on the hash of the last record that has one. */
  lemma {:induction false} RebuildFindsLastSha(lines: seq<Bytes>, parse: Bytes -> Parsed, from: Cache)
    requires Rebuilt(lines, parse, from).Some?
    ensures Rebuilt(lines, parse, from).value.lastSha
         == if Links(lines, parse) == [] then from.lastSha else LastSha(Links(lines, parse))
  {
    if lines != [] {
      FirstLinks(lines, parse);
      hide Links;
      match parse(lines[0]) {
        case NotJson => RebuildFindsLastSha(lines[1..], parse, from);
        case Record(r) => RebuildFindsLastSha(lines[1..], parse, Applied(from, r));
      }
    } else {
      assert Links(lines, parse) == [];
    }
  }

  lemma FirstLinks(lines: seq<Bytes>, parse: Bytes -> Parsed)
    requires lines != []
    ensures var p, rest := parse(lines[0]), Links(lines[1..], parse);
      && Links(lines, parse) == (if p.Record? && p.rec.sha != [] then [Link(p.rec.previous, p.rec.sha)] else []) + rest
      && LastSha(Links(lines, parse)) == if rest != [] then LastSha(rest) else if p.Record? then p.rec.sha else []
  {
    hide Links;
    assert lines == [lines[0]] + lines[1..];
    LinksSplit([lines[0]], lines[1..], parse);
    LinksOne(lines[0], parse);
  }
}
