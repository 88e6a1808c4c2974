/** The hash chain and the cache over every run of appends, torn appends, restarts from a throttled
    index, rotations and pruning. */
module EvidenceChain {
  import opened Common
  import opened Text
  import opened EvidenceFiles
  import opened EvidenceCache
  import opened EvidenceLines

  /** The retained files, the cache in memory, and the index as it was last flushed. Two histories ride
      along: `known` is the lines the cache in memory stands for, `indexed` those the flushed one does. */
  datatype Store = Store(
    archives: seq<Bytes>, active: Bytes, cache: Cache, dirty: nat, writtenAt: int, index: Index,
    known: seq<Bytes>, indexed: seq<Bytes>)

  function LinesOf(s: Store): seq<Bytes> {
    AllLines(s.archives + [s.active])
  }

  function LinksOf(s: Store, parse: Bytes -> Parsed): seq<Link> {
    Links(LinesOf(s), parse)
  }

  datatype Action =
    | Append(line: Bytes, now: int)
    | Flush(now: int)
    | Rotate(pruned: nat, now: int)
    | Prune(pruned: nat, now: int)
    | Crash(torn: Option<Bytes>, renamed: bool, pruned: nat, now: int)

  /** The files as a crash left them: with the beginning of a line, after a rename, or after some of the
      oldest archives went. */
  function Crashed(s: Store, torn: Option<Bytes>, renamed: bool, pruned: nat): Store
    requires pruned <= |s.archives| + if renamed then 1 else 0
  {
    var active := if torn.Some? then Isolated(s.active) + torn.value else s.active;
    if renamed then s.(archives := (s.archives + [Isolated(active)])[pruned..], active := [])
    else s.(archives := s.archives[pruned..], active := active)
  }

  /** An appended record names the hash in memory as its predecessor. A crash may leave some beginning
      of a line behind that is not a whole record. */
  ghost predicate Enabled(s: Store, a: Action, parse: Bytes -> Parsed) {
    match a
    case Append(line, _) =>
      OneLine(line) && IsLink(line, parse) && parse(line).rec.previous == s.cache.lastSha
    case Flush(_) => true
    case Rotate(pruned, _) => s.active != [] && pruned <= |s.archives| + 1
    case Prune(pruned, _) => pruned <= |s.archives|
    case Crash(torn, renamed, pruned, _) =>
      && (renamed ==> s.active != [] && torn.None?)
      && pruned <= |s.archives| + (if renamed then 1 else 0)
      && (torn.Some? ==>
            && (forall i | 0 <= i < |torn.value| :: torn.value[i] != Newline())
            && TornUnreadable(Isolated(s.active) + torn.value, parse))
  }

  function Flushed(s: Store, now: int): Store {
    s.(index := Index(s.cache, Some(|s.active|), s.archives), dirty := 0, writtenAt := now, indexed := s.known)
  }

  /** The cache changed once more. */
  function Throttled(s: Store, now: int): Store {
    if s.dirty + 1 >= FLUSH_CHANGES || now - s.writtenAt >= FLUSH_SECONDS then Flushed(s, now) else s.(dirty := s.dirty + 1)
  }

  function Appended(s: Store, line: Bytes, parse: Bytes -> Parsed): Store
    requires parse(line).Record?
  {
    s.(active := Isolated(s.active) + line, cache := Applied(s.cache, parse(line).rec),
       known := s.known + TornLine(s.active) + [line])
  }

  /** The lines the cache stands for after a restart. */
  function Reread(s: Store): seq<Bytes> {
    var n := s.index.bytes;
    if !AnyEvidence(s.archives, s.active) then []
    else if s.index.manifest != s.archives || n.None? || n.value > |s.active| then LinesOf(s)
    else if n.value == |s.active| then s.indexed
    else if Boundary(s.active, n.value) then s.indexed + Lines(s.active[n.value..])
    else LinesOf(s)
  }

  /** A restart at `now` finds the cache in the index, the tail or all files, and flushes what it had
      to read. The throttle starts afresh, and without evidence the index is left as it is. */
  function Restarted(s: Store, parse: Bytes -> Parsed, now: int): Store {
    var found := Loaded(s.archives, s.active, s.index, parse);
    var r := s.(cache := found.GetOr(s.cache), known := Reread(s), dirty := 0, writtenAt := 0);
    if !AnyEvidence(s.archives, s.active) || (s.index.manifest == s.archives && s.index.bytes == Some(|s.active|))
    then r else Flushed(r, now)
  }

  function Next(s: Store, a: Action, parse: Bytes -> Parsed): Store
    requires Enabled(s, a, parse)
  {
    match a
    case Append(line, now) => Throttled(Appended(s, line, parse), now)
    case Flush(now) => Flushed(s, now)
    case Rotate(pruned, now) =>
      Flushed(Crashed(s, None, true, pruned).(known := s.known + TornLine(s.active)), now)
    case Prune(pruned, now) => Flushed(Crashed(s, None, false, pruned), now)
    case Crash(torn, renamed, pruned, now) => Restarted(Crashed(s, torn, renamed, pruned), parse, now)
  }

  /** The index was written for other files than a beginning of these. */
  predicate Stale(s: Store) {
    s.index.bytes.Some? && !(s.index.manifest == s.archives && s.index.bytes.value <= |s.active|)
  }

  /** An append beside a stale index that the throttle does not write. */
  predicate Exposed(s: Store, a: Action) {
    a.Append? && Stale(s) && s.dirty + 1 < FLUSH_CHANGES && a.now - s.writtenAt < FLUSH_SECONDS
  }

  // ----- the invariant ----------------------------------------------------------------------

  /** The retained files can be read, and an unfinished last line is no whole record. */
  ghost predicate FilesSound(s: Store, parse: Bytes -> Parsed) {
    && Readable(LinesOf(s), parse)
    && TornUnreadable(s.active, parse)
    && (forall a | a in s.archives :: EndsLine(a))
    && Contiguous(LinksOf(s, parse))
  }

  /** The cache in memory is what a rebuild makes of `known`, which ends with every retained line; it
      may go on remembering lines of archives that were pruned. */
  ghost predicate CacheTrue(s: Store, parse: Bytes -> Parsed) {
    Rebuilt(s.known, parse, NoCache()) == Some(s.cache) && EndsWith(s.known, LinesOf(s))
  }

  /** Where the index fits the files, its cache stands for everything up to its length. */
  ghost predicate IndexTrue(s: Store, parse: Bytes -> Parsed) {
    s.index.bytes.Some? ==>
      && Rebuilt(s.indexed, parse, NoCache()) == Some(s.index.cache)
      && (s.index.manifest == s.archives && s.index.bytes.value <= |s.active| ==>
            EndsWith(s.indexed, AllLines(s.archives + [s.active[..s.index.bytes.value]])))
  }

  /** The index is stale only where no evidence is left and this process has not written it yet. */
  predicate IndexFits(s: Store) {
    Stale(s) ==> s.archives == [] && s.active == [] && s.writtenAt == 0
  }

  ghost predicate Inv(s: Store, parse: Bytes -> Parsed) {
    FilesSound(s, parse) && CacheTrue(s, parse) && IndexTrue(s, parse) && IndexFits(s)
  }

  /** The hash in memory is that of the last retained record. */
  lemma MemoryNamesLast(s: Store, parse: Bytes -> Parsed)
    requires CacheTrue(s, parse) && LinksOf(s, parse) != []
    ensures s.cache.lastSha == LastSha(LinksOf(s, parse))
  {
    hide Links, AllLines, Rebuilt;
    var n := |s.known| - |LinesOf(s)|;
    assert s.known == s.known[..n] + LinesOf(s);
    LinksSplit(s.known[..n], LinesOf(s), parse);
    RebuildFindsLastSha(s.known, parse, NoCache());
  }

  // ----- each action ------------------------------------------------------------------------

  lemma FlushKeeps(s: Store, parse: Bytes -> Parsed, now: int)
    requires FilesSound(s, parse) && CacheTrue(s, parse)
    ensures Inv(Flushed(s, now), parse)
  {
    assert s.active[..|s.active|] == s.active;
    hide AllLines, Rebuilt, Readable, Contiguous, Links, EndsWith;
  }

  lemma AppendedReads(s: Store, line: Bytes, parse: Bytes -> Parsed)
    requires OneLine(line) && parse(line).Record?
    ensures var t, more := Appended(s, line, parse), TornLine(s.active) + [line];
      LinesOf(t) == LinesOf(s) + more && t.known == s.known + more && Torn(t.active) == []
  {
    hide AllLines, Torn, Isolated, TornLine, Applied, OneLine;
    AppendedLines(s.archives, s.active, line);
    LineEndsIt(Isolated(s.active), line);
  }

  lemma AppendedFiles(s: Store, line: Bytes, parse: Bytes -> Parsed)
    requires FilesSound(s, parse) && CacheTrue(s, parse)
    requires OneLine(line) && IsLink(line, parse) && parse(line).rec.previous == s.cache.lastSha
    ensures FilesSound(Appended(s, line, parse), parse)
  {
    AppendedArchives(s, line, parse);
    hide LinesOf, Links, Torn, TornLine, Contiguous, Appended, OneLine, Rebuilt, EndsWith;
    AppendedReads(s, line, parse);
    TornLineIsQuiet(s.active, parse);
    assert Readable([line], parse);
    ReadableParts(TornLine(s.active), [line], parse);
    ReadableParts(LinesOf(s), TornLine(s.active) + [line], parse);
    AppendedChain(s, line, parse);
  }

  lemma AppendedArchives(s: Store, line: Bytes, parse: Bytes -> Parsed)
    requires parse(line).Record?
    ensures Appended(s, line, parse).archives == s.archives
  {
  }

  lemma AppendedCache(s: Store, line: Bytes, parse: Bytes -> Parsed)
    requires FilesSound(s, parse) && CacheTrue(s, parse) && OneLine(line) && parse(line).Record?
    ensures CacheTrue(Appended(s, line, parse), parse)
  {
    hide AllLines, Rebuilt, Links, LineEnd, Torn, Isolated, TornLine, Applied, Contiguous, Readable, EndsWith, OneLine;
    var more := TornLine(s.active) + [line];
    AppendedReads(s, line, parse);
    TornLineIsQuiet(s.active, parse);
    EndsWithMore(s.known, LinesOf(s), more);
    RebuiltSplit(s.known, more, parse, NoCache());
    ReadMore(TornLine(s.active), line, parse, s.cache);
  }

  lemma AppendedChain(s: Store, line: Bytes, parse: Bytes -> Parsed)
    requires FilesSound(s, parse) && CacheTrue(s, parse)
    requires OneLine(line) && IsLink(line, parse) && parse(line).rec.previous == s.cache.lastSha
    ensures LinksOf(Appended(s, line, parse), parse) == LinksOf(s, parse) + [Link(s.cache.lastSha, parse(line).rec.sha)]
    ensures Contiguous(LinksOf(Appended(s, line, parse), parse))
  {
    hide AllLines, Rebuilt, Links, LineEnd, Torn, Isolated, TornLine, Contiguous, Readable;
    var torn, was := TornLine(s.active), LinesOf(s);
    AppendedLines(s.archives, s.active, line);
    JoinThree(was, torn, [line]);
    QuietLinks(was, s.active, parse);
    LinksSplit(was + torn, [line], parse);
    LinksOne(line, parse);
    if LinksOf(s, parse) != [] { MemoryNamesLast(s, parse); }
    ChainGrows(LinksOf(s, parse), Link(s.cache.lastSha, parse(line).rec.sha));
  }

  /** An append that the throttle does not write leaves the index fitting a beginning of the file. */
  lemma UnflushedIndex(s: Store, line: Bytes, parse: Bytes -> Parsed)
    requires IndexTrue(s, parse) && !Stale(s) && parse(line).Record?
    ensures IndexTrue(Appended(s, line, parse), parse) && IndexFits(Appended(s, line, parse))
  {
    hide AllLines, Rebuilt, EndsWith, Isolated, TornLine, Applied;
    if s.index.bytes.Some? {
      PrefixStays(s.active, line, s.index.bytes.value);
    }
  }

  lemma AppendKeeps(s: Store, line: Bytes, now: int, parse: Bytes -> Parsed)
    requires Inv(s, parse) && Enabled(s, Append(line, now), parse) && !Exposed(s, Append(line, now))
    ensures Inv(Next(s, Append(line, now), parse), parse)
  {
    hide OneLine, AllLines, Rebuilt, EndsWith, Appended, Readable, Links, Contiguous, TornUnreadable;
    AppendedFiles(s, line, parse);
    AppendedCache(s, line, parse);
    var t := Appended(s, line, parse);
    AppendKeepsClock(s, line, parse);
    FlushKeeps(t, parse, now);
    if !Stale(s) {
      UnflushedIndex(s, line, parse);
    }
    hide Flushed;
  }

  lemma AppendKeepsClock(s: Store, line: Bytes, parse: Bytes -> Parsed)
    requires parse(line).Record?
    ensures var t := Appended(s, line, parse); t.writtenAt == s.writtenAt && t.dirty == s.dirty
  {
  }

  /** What a crash does to the files, without the restart. */
  lemma CrashedFiles(s: Store, torn: Option<Bytes>, renamed: bool, pruned: nat, parse: Bytes -> Parsed)
    requires FilesSound(s, parse) && Enabled(s, Crash(torn, renamed, pruned, 0), parse)
    ensures var t := Crashed(s, torn, renamed, pruned);
      var more := if torn.Some? || renamed then TornLine(s.active) else [];
      FilesSound(t, parse) && exists gone :: LinesOf(s) + more == gone + LinesOf(t)
  {
    hide FilesSound, TornLine, TornUnreadable, LinesOf, Isolated;
    AllLinesOfCrash(s, torn, renamed, parse);
    OldestGone(Crashed(s, torn, renamed, 0), Crashed(s, torn, renamed, pruned), pruned, parse);
  }

  lemma OldestGone(all: Store, t: Store, pruned: nat, parse: Bytes -> Parsed)
    requires FilesSound(all, parse) && pruned <= |all.archives|
    requires t.archives == all.archives[pruned..] && t.active == all.active
    ensures FilesSound(t, parse) && exists gone :: LinesOf(all) == gone + LinesOf(t)
  {
    hide AllLines, Links, TornUnreadable, Contiguous, Readable, EndsLine;
    PrunedLines(all.archives, all.active, pruned);
    var gone :| LinesOf(all) == gone + LinesOf(t);
    ReadableParts(gone, LinesOf(t), parse);
    LaterLinks(gone, LinesOf(t), parse);
    assert forall a | a in t.archives :: a in all.archives;
  }

  lemma AllLinesOfCrash(s: Store, torn: Option<Bytes>, renamed: bool, parse: Bytes -> Parsed)
    requires FilesSound(s, parse) && Enabled(s, Crash(torn, renamed, 0, 0), parse)
    ensures var all := Crashed(s, torn, renamed, 0);
      var more := if torn.Some? || renamed then TornLine(s.active) else [];
      FilesSound(all, parse) && LinesOf(all) == LinesOf(s) + more
  {
    hide AllLines, Links, Torn, TornLine, Contiguous, Rebuilt, Isolated;
    TornLineIsQuiet(s.active, parse);
    QuietLinks(LinesOf(s), s.active, parse);
    ReadableParts(LinesOf(s), TornLine(s.active), parse);
    assert s.archives[0..] == s.archives;
    assert LinesOf(s) + [] == LinesOf(s);
    if renamed {
      assert (s.archives + [Isolated(s.active)])[0..] == s.archives + [Isolated(s.active)];
      RotatedLines(s.archives, s.active);
      IsolatedLines(s.active);
      IsolatedNotEmpty(s.active);
      NoNewlineNoLines([]);
    } else if torn.Some? {
      TornLines(s.archives, s.active, torn.value);
    }
  }

  /** Pruning and rotating leave the cache standing for what it stood for. */
  lemma DropsKeep(s: Store, renamed: bool, pruned: nat, now: int, parse: Bytes -> Parsed)
    requires Inv(s, parse) && Enabled(s, Crash(None, renamed, pruned, 0), parse)
    ensures var known := s.known + if renamed then TornLine(s.active) else [];
      Inv(Flushed(Crashed(s, None, renamed, pruned).(known := known), now), parse)
  {
    hide TornLine, LinesOf, Links, Contiguous, Rebuilt, Readable, EndsWith, IndexTrue, IndexFits, Crashed;
    var more := if renamed then TornLine(s.active) else [];
    var t := Crashed(s, None, renamed, pruned);
    CrashedFiles(s, None, renamed, pruned, parse);
    var gone :| LinesOf(s) + more == gone + LinesOf(t);
    QuietDrop(s, more, gone, LinesOf(t), parse) by { TornLineIsQuiet(s.active, parse); }
    SameCache(s, renamed, pruned);
    var r := t.(known := s.known + more);
    SameFiles(t, r, parse);
    FlushKeeps(r, parse, now);
  }

  lemma SameCache(s: Store, renamed: bool, pruned: nat)
    requires pruned <= |s.archives| + if renamed then 1 else 0
    ensures Crashed(s, None, renamed, pruned).cache == s.cache
  {
  }

  lemma SameFiles(s: Store, t: Store, parse: Bytes -> Parsed)
    requires t.archives == s.archives && t.active == s.active
    ensures LinesOf(t) == LinesOf(s) && (FilesSound(s, parse) ==> FilesSound(t, parse))
  {
    hide Links, AllLines, Contiguous, TornUnreadable;
  }

  lemma QuietDrop(s: Store, more: seq<Bytes>, gone: seq<Bytes>, rest: seq<Bytes>, parse: Bytes -> Parsed)
    requires CacheTrue(s, parse) && |more| <= 1 && (forall l | l in more :: parse(l) == NotJson)
    requires LinesOf(s) + more == gone + rest
    ensures Rebuilt(s.known + more, parse, NoCache()) == Some(s.cache) && EndsWith(s.known + more, rest)
  {
    hide LinesOf, Rebuilt, EndsWith;
    EndsWithMore(s.known, LinesOf(s), more);
    EndsWithLess(s.known + more, gone, rest);
    RebuiltSplit(s.known, more, parse, NoCache());
    QuietRebuilds(more, parse, s.cache);
  }

  /** The index still tells the truth about the files a crash left. */
  lemma CrashedIndex(s: Store, torn: Option<Bytes>, renamed: bool, pruned: nat, parse: Bytes -> Parsed)
    requires Inv(s, parse) && Enabled(s, Crash(torn, renamed, pruned, 0), parse)
    ensures IndexTrue(Crashed(s, torn, renamed, pruned), parse)
  {
    hide FilesSound, CacheTrue, AllLines, Rebuilt, EndsWith, TornUnreadable;
    var t := Crashed(s, torn, renamed, pruned);
    if s.index.bytes.Some? && s.index.manifest == t.archives && s.index.bytes.value <= |t.active| {
      var n := s.index.bytes.value;
      if s.index.manifest == s.archives && n <= |s.active| {
        assert t.active[..n] == s.active[..n];
      } else {
        assert s.archives == [] && s.active == [] && t.archives == [];
        NothingNew(t.active[..n]);
        EndsWithNothing(s.indexed);
      }
    }
  }

  lemma NothingRetained(s: Store, parse: Bytes -> Parsed)
    requires FilesSound(s, parse) && !AnyEvidence(s.archives, s.active)
    ensures s.archives == [] && s.active == [] && LinesOf(s) == []
  {
    hide Links, Readable, AllLines, Contiguous, TornUnreadable;
    NoEvidenceNoLines(s.archives, s.active);
    ArchivesAreEvidence(s.archives, s.active);
  }

  /** Reading the tail goes on from the flushed cache to what a rebuild of everything would find. */
  lemma TailIsRead(s: Store, n: nat, parse: Bytes -> Parsed)
    requires FilesSound(s, parse) && IndexTrue(s, parse)
    requires s.index.bytes == Some(n) && s.index.manifest == s.archives && Boundary(s.active, n)
    ensures var tail := Lines(s.active[n..]);
      && Recovered(tail, parse, s.index.cache) == Rebuilt(s.indexed + tail, parse, NoCache())
      && Recovered(tail, parse, s.index.cache).Some?
      && EndsWith(s.indexed + tail, LinesOf(s))
  {
    hide Lines, AllLines, Rebuilt, Recovered, Links, Contiguous, Readable, EndsWith;
    var p, q := s.active[..n], s.active[n..];
    assert s.active == p + q;
    LinesSplit(p, q);
    ActiveLast(s.archives, p);
    ActiveLast(s.archives, s.active);
    JoinThree(AllLines(s.archives), Lines(p), Lines(q));
    assert LinesOf(s) == AllLines(s.archives + [p]) + Lines(q);
    ReadableParts(AllLines(s.archives + [p]), Lines(q), parse);
    ReadableRebuilds(Lines(q), parse, s.index.cache);
    RebuiltSplit(s.indexed, Lines(q), parse, NoCache());
    EndsWithMore(s.indexed, AllLines(s.archives + [p]), Lines(q));
  }

  lemma RestartKeeps(s: Store, parse: Bytes -> Parsed, now: int)
    requires FilesSound(s, parse) && IndexTrue(s, parse)
    ensures Loaded(s.archives, s.active, s.index, parse).Some?
    ensures Inv(Restarted(s, parse, now), parse)
  {
    hide Lines, AllLines, Rebuilt, Recovered, Links, Contiguous, Readable, AnyEvidence;
    var r := Restarted(s, parse, now);
    var n := s.index.bytes;
    NothingRebuilt(parse);
    if !AnyEvidence(s.archives, s.active) {
      NothingRetained(s, parse);
    } else if n.Some? && s.index.manifest == s.archives && n.value == |s.active| {
      assert s.active[..n.value] == s.active;
    } else {
      if n.Some? && s.index.manifest == s.archives && n.value < |s.active| && Boundary(s.active, n.value) {
        TailIsRead(s, n.value, parse);
      } else {
        ReadableRebuilds(LinesOf(s), parse, NoCache());
      }
      FlushKeeps(r, parse, now);
    }
  }

  lemma StepKeeps(s: Store, a: Action, parse: Bytes -> Parsed)
    requires Inv(s, parse) && Enabled(s, a, parse) && !Exposed(s, a)
    ensures Inv(Next(s, a, parse), parse)
  {
    hide FilesSound, CacheTrue, IndexTrue, IndexFits, TornUnreadable, TornLine;
    match a
    case Append(line, now) => AppendKeeps(s, line, now, parse);
    case Flush(now) => FlushKeeps(s, parse, now);
    case Rotate(pruned, now) => DropsKeep(s, true, pruned, now, parse);
    case Prune(pruned, now) =>
      DropsKeep(s, false, pruned, now, parse);
      assert s.known + [] == s.known;
    case Crash(torn, renamed, pruned, now) =>
      CrashedFiles(s, torn, renamed, pruned, parse);
      CrashedIndex(s, torn, renamed, pruned, parse);
      RestartKeeps(Crashed(s, torn, renamed, pruned), parse, now);
  }

  // ----- runs -------------------------------------------------------------------------------

  /** A collector that starts with no evidence and no index. */
  function Empty(): Store {
    Store([], [], NoCache(), 0, 0, Index(NoCache(), None, []), [], [])
  }

  ghost predicate IsRun(run: seq<Store>, acts: seq<Action>, parse: Bytes -> Parsed) {
    && |run| == |acts| + 1
    && run[0] == Empty()
    && forall i | 0 <= i < |acts| :: Enabled(run[i], acts[i], parse) && run[i + 1] == Next(run[i], acts[i], parse)
  }

  lemma EmptyLines()
    ensures LinesOf(Empty()) == []
  {
    NothingNew([]);
  }

  lemma EmptyFiles(parse: Bytes -> Parsed)
    ensures FilesSound(Empty(), parse)
  {
    hide LinesOf, Torn;
    EmptyLines();
    NoNewlineNoLines([]);
  }

  lemma EmptyCache(parse: Bytes -> Parsed)
    ensures CacheTrue(Empty(), parse)
  {
    hide LinesOf;
    EmptyLines();
    NothingRebuilt(parse);
  }

  lemma StartKeeps(parse: Bytes -> Parsed)
    ensures Inv(Empty(), parse)
  {
    hide FilesSound, CacheTrue, Rebuilt, EndsWith, AllLines;
    EmptyFiles(parse);
    EmptyCache(parse);
  }

  /** No append of the run is left unwritten beside a stale index. */
  ghost predicate NeverExposed(run: seq<Store>, acts: seq<Action>) {
    |run| == |acts| + 1 && forall i | 0 <= i < |acts| :: !Exposed(run[i], acts[i])
  }

  lemma {:induction false} RunKeeps(run: seq<Store>, acts: seq<Action>, parse: Bytes -> Parsed, i: nat)
    requires IsRun(run, acts, parse) && NeverExposed(run, acts) && i < |run|
    ensures Inv(run[i], parse)
  {
    hide Inv, Enabled, Next, Exposed;
    if i == 0 {
      StartKeeps(parse);
    } else {
      RunKeeps(run, acts, parse, i - 1);
      assert Enabled(run[i - 1], acts[i - 1], parse) && run[i] == Next(run[i - 1], acts[i - 1], parse);
      StepKeeps(run[i - 1], acts[i - 1], parse);
    }
  }

  /** In every run of appends, torn appends, restarts, rotations and prunings, with crashes at any point
      of them, the retained records form one chain: each names the hash of the one before it, and
      memory holds the hash the next one will name. */
  lemma ChainStaysContiguous(run: seq<Store>, acts: seq<Action>, parse: Bytes -> Parsed, i: nat)
    requires IsRun(run, acts, parse) && NeverExposed(run, acts) && i < |run|
    ensures Contiguous(LinksOf(run[i], parse))
    ensures LinksOf(run[i], parse) != [] ==> run[i].cache.lastSha == LastSha(LinksOf(run[i], parse))
  {
    hide IsRun, NeverExposed, CacheTrue, IndexTrue, LinksOf, Contiguous;
    RunKeeps(run, acts, parse, i);
    if LinksOf(run[i], parse) != [] { MemoryNamesLast(run[i], parse); }
  }

  // ----- the cache over a run ---------------------------------------------------------------

  /** `a` knows all that `b` knows, and may remember more. */
  ghost predicate Remembers(a: Cache, b: Cache) {
    && b.count <= a.count
    && (forall key | key in b.fingerprints :: key in a.fingerprints && a.fingerprints[key] == b.fingerprints[key])
  }

  lemma {:induction false} RebuiltRemembers(lines: seq<Bytes>, parse: Bytes -> Parsed, more: Cache, less: Cache)
    requires Remembers(more, less) && Readable(lines, parse)
    ensures Rebuilt(lines, parse, more).Some? && Rebuilt(lines, parse, less).Some?
    ensures Remembers(Rebuilt(lines, parse, more).value, Rebuilt(lines, parse, less).value)
  {
    if lines != [] {
      assert lines == [lines[0]] + lines[1..];
      ReadableParts([lines[0]], lines[1..], parse);
      assert lines[0] in lines;
      match parse(lines[0]) {
        case NotJson => RebuiltRemembers(lines[1..], parse, more, less);
        case Record(r) => RebuiltRemembers(lines[1..], parse, Applied(more, r), Applied(less, r));
      }
    }
  }

  /** Over every run, whatever the throttled index had missed at each restart and whatever was pruned:
      reading all retained files succeeds, and the cache in memory holds every fingerprint that it
      would find. */
  lemma CacheKnowsTheFiles(run: seq<Store>, acts: seq<Action>, parse: Bytes -> Parsed, i: nat)
    requires IsRun(run, acts, parse) && NeverExposed(run, acts) && i < |run|
    ensures var found := RebuildAll(run[i].archives, run[i].active, parse);
      found.Some? && Remembers(run[i].cache, found.value)
  {
    hide IsRun, NeverExposed, IndexTrue, Rebuilt, AllLines, Links, Contiguous, Remembers, Readable, TornUnreadable;
    RunKeeps(run, acts, parse, i);
    var s := run[i];
    var n := |s.known| - |LinesOf(s)|;
    assert s.known == s.known[..n] + LinesOf(s);
    RebuiltSplit(s.known[..n], LinesOf(s), parse, NoCache());
    var before := Rebuilt(s.known[..n], parse, NoCache());
    RemembersNothing(before.value);
    RebuiltRemembers(LinesOf(s), parse, before.value, NoCache());
  }

  lemma RemembersNothing(c: Cache)
    ensures Remembers(c, NoCache())
  {
  }

  predicate PrunesNothing(a: Action) {
    match a
    case Rotate(pruned, _) => pruned == 0
    case Prune(pruned, _) => pruned == 0
    case Crash(_, _, pruned, _) => pruned == 0
    case _ => true
  }

  /** Nothing was pruned: the cache stands for exactly the retained lines, and the index for exactly
      those below its length. */
  ghost predicate Exact(s: Store) {
    && s.known == LinesOf(s)
    && (s.index.bytes.Some? ==>
          && s.index.manifest == s.archives && s.index.bytes.value <= |s.active|
          && s.indexed == AllLines(s.archives + [s.active[..s.index.bytes.value]]))
  }

  lemma FlushIsExact(s: Store, now: int)
    requires s.known == LinesOf(s)
    ensures Exact(Flushed(s, now))
  {
    assert s.active[..|s.active|] == s.active;
    hide AllLines;
  }

  lemma AppendIsExact(s: Store, line: Bytes, now: int, parse: Bytes -> Parsed)
    requires Exact(s) && Enabled(s, Append(line, now), parse)
    ensures Exact(Next(s, Append(line, now), parse))
  {
    hide AllLines, Isolated, TornLine, Applied, OneLine;
    var t := Appended(s, line, parse);
    AppendedLines(s.archives, s.active, line);
    JoinThree(s.known, TornLine(s.active), [line]);
    FlushIsExact(t, now);
    if s.index.bytes.Some? {
      PrefixStays(s.active, line, s.index.bytes.value);
    }
  }

  lemma CrashedIsExact(s: Store, torn: Option<Bytes>, renamed: bool, parse: Bytes -> Parsed)
    requires Inv(s, parse) && Exact(s) && Enabled(s, Crash(torn, renamed, 0, 0), parse)
    ensures var t := Crashed(s, torn, renamed, 0);
      t.index.bytes.Some? && t.index.manifest == t.archives ==>
        && t.index.bytes.value <= |t.active|
        && t.indexed == AllLines(t.archives + [t.active[..t.index.bytes.value]])
  {
    hide Inv, AllLines, Isolated, TornUnreadable;
    assert s.archives[0..] == s.archives;
    if renamed {
      assert |Crashed(s, torn, renamed, 0).archives| == |s.archives| + 1;
    } else if torn.Some? && s.index.bytes.Some? {
      PrefixStays(s.active, torn.value, s.index.bytes.value);
    }
  }

  lemma RestartIsExact(s: Store, parse: Bytes -> Parsed, now: int)
    requires FilesSound(s, parse)
    requires s.index.bytes.Some? && s.index.manifest == s.archives ==>
      && s.index.bytes.value <= |s.active|
      && s.indexed == AllLines(s.archives + [s.active[..s.index.bytes.value]])
    requires !AnyEvidence(s.archives, s.active) && s.index.bytes.Some? ==> s.index.manifest == s.archives
    ensures Exact(Restarted(s, parse, now))
  {
    hide AllLines, Rebuilt, Recovered, Links, Contiguous, Readable, Lines, AnyEvidence, Loaded;
    var r, n := Restarted(s, parse, now), s.index.bytes;
    if !AnyEvidence(s.archives, s.active) {
      NothingRetained(s, parse);
    } else if n.Some? && s.index.manifest == s.archives && n.value == |s.active| {
      assert s.active[..n.value] == s.active;
    } else {
      if n.Some? && s.index.manifest == s.archives && n.value < |s.active| && Boundary(s.active, n.value) {
        var p, q := s.active[..n.value], s.active[n.value..];
        assert s.active == p + q;
        LinesSplit(p, q);
        ActiveLast(s.archives, p);
        ActiveLast(s.archives, s.active);
        JoinThree(AllLines(s.archives), Lines(p), Lines(q));
      }
      FlushIsExact(r.(index := s.index, dirty := 0, writtenAt := 0, indexed := s.indexed), now);
    }
  }

  lemma StepIsExact(s: Store, a: Action, parse: Bytes -> Parsed)
    requires Inv(s, parse) && Exact(s) && Enabled(s, a, parse) && PrunesNothing(a)
    ensures Exact(Next(s, a, parse))
  {
    hide Exact, Inv, TornLine, LinesOf, Restarted, TornUnreadable, Isolated;
    assert s.known == LinesOf(s) by { ExactKnows(s); }
    match a
    case Append(line, now) => AppendIsExact(s, line, now, parse);
    case Flush(now) => FlushIsExact(s, now);
    case Rotate(_, now) =>
      FilesAreSound(s, parse);
      AllLinesOfCrash(s, None, true, parse);
      var t := Crashed(s, None, true, 0).(known := s.known + TornLine(s.active));
      SameFiles(Crashed(s, None, true, 0), t, parse);
      FlushIsExact(t, now);
    case Prune(_, now) =>
      assert s.archives[0..] == s.archives;
      FlushIsExact(Crashed(s, None, false, 0), now);
    case Crash(torn, renamed, _, now) =>
      FilesAreSound(s, parse);
      AllLinesOfCrash(s, torn, renamed, parse);
      CrashedIsExact(s, torn, renamed, parse);
      EvidenceStays(s, torn, renamed, parse);
      RestartIsExact(Crashed(s, torn, renamed, 0), parse, now);
  }

  lemma ExactKnows(s: Store)
    requires Exact(s)
    ensures s.known == LinesOf(s)
  {
  }

  lemma FilesAreSound(s: Store, parse: Bytes -> Parsed)
    requires Inv(s, parse)
    ensures FilesSound(s, parse)
  {
  }

  lemma EvidenceStays(s: Store, torn: Option<Bytes>, renamed: bool, parse: Bytes -> Parsed)
    requires Exact(s) && Enabled(s, Crash(torn, renamed, 0, 0), parse)
    ensures var t := Crashed(s, torn, renamed, 0);
      !AnyEvidence(t.archives, t.active) && t.index.bytes.Some? ==> t.index.manifest == t.archives
  {
    hide AllLines, TornUnreadable;
    assert s.archives[0..] == s.archives;
    if renamed {
      var t := Crashed(s, torn, renamed, 0);
      IsolatedNotEmpty(s.active);
      assert t.archives[|s.archives|] == Isolated(s.active) && t.archives[|s.archives|] in t.archives;
    }
  }

  lemma EmptyIsExact()
    ensures Exact(Empty())
  {
    NothingNew([]);
  }

  lemma ExactIsFresh(s: Store, a: Action)
    requires Exact(s)
    ensures !Exposed(s, a)
  {
    hide AllLines;
  }

  lemma {:induction false} UnprunedKeeps(run: seq<Store>, acts: seq<Action>, parse: Bytes -> Parsed, i: nat)
    requires IsRun(run, acts, parse) && (forall a | a in acts :: PrunesNothing(a)) && i < |run|
    ensures Inv(run[i], parse) && Exact(run[i])
  {
    hide Exact, Inv, Enabled, Next, PrunesNothing, Exposed;
    if i == 0 {
      StartKeeps(parse);
      EmptyIsExact();
    } else {
      UnprunedKeeps(run, acts, parse, i - 1);
      assert Enabled(run[i - 1], acts[i - 1], parse) && run[i] == Next(run[i - 1], acts[i - 1], parse);
      ExactIsFresh(run[i - 1], acts[i - 1]);
      StepKeeps(run[i - 1], acts[i - 1], parse);
      StepIsExact(run[i - 1], acts[i - 1], parse);
    }
  }

  /** Over every run that prunes nothing - appends flushed or not, torn lines, restarts through the
      index, the tail or all files, rotations, crashes in the middle of them - the cache in memory is
      the one a full rebuild finds, the index was right when it was flushed, and the records form one
      chain. */
  lemma CacheIsRebuild(run: seq<Store>, acts: seq<Action>, parse: Bytes -> Parsed, i: nat)
    requires IsRun(run, acts, parse) && (forall a | a in acts :: PrunesNothing(a)) && i < |run|
    ensures RebuildAll(run[i].archives, run[i].active, parse) == Some(run[i].cache)
    ensures WasRight(run[i].archives, run[i].active, run[i].index, parse)
    ensures Contiguous(LinksOf(run[i], parse))
  {
    hide IsRun, IndexFits, AllLines, Rebuilt, PrunesNothing, Links, Contiguous, Readable;
    UnprunedKeeps(run, acts, parse, i);
  }

  // ----- the torn record that is whole --------------------------------------------------------

  /** A crash that left a whole record without its newline: the restart does not see it, the next
      append finishes its line, and the chain forks - unless the record happens to be its own
      predecessor, and to follow the last retained record if there is one. */
  lemma WholeTornRecordForks(s: Store, line: Bytes, parse: Bytes -> Parsed)
    requires Contiguous(LinksOf(s, parse))
    requires LinksOf(s, parse) != [] ==> s.cache.lastSha == LastSha(LinksOf(s, parse))
    requires OneLine(line) && IsLink(line, parse) && parse(line).rec.previous == s.cache.lastSha
    requires Torn(s.active) != [] && IsLink(Torn(s.active) + [Newline()], parse)
    ensures var torn := parse(Torn(s.active) + [Newline()]).rec;
      Contiguous(Links(AllLines(s.archives + [Isolated(s.active) + line]), parse))
      <==> torn.sha == s.cache.lastSha && (LinksOf(s, parse) != [] ==> torn.previous == s.cache.lastSha)
  {
    hide Torn, Isolated, Links, AllLines, LineEnd, Contiguous, OneLine;
    var t := Torn(s.active) + [Newline()];
    AppendedLines(s.archives, s.active, line);
    LinksSplit(LinesOf(s), [t] + [line], parse);
    LinksSplit([t], [line], parse);
    LinksOne(t, parse);
    LinksOne(line, parse);
    var a, b := Link(parse(t).rec.previous, parse(t).rec.sha), Link(s.cache.lastSha, parse(line).rec.sha);
    assert LinksOf(s, parse) + ([a] + [b]) == LinksOf(s, parse) + [a] + [b];
    ForkedIff(LinksOf(s, parse), a, b);
  }
}
