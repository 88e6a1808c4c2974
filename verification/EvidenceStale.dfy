/** A stale index: how it comes about, and what records appended beside it lose. */
module EvidenceStale {
  import opened Common
  import opened Text
  import opened EvidenceFiles
  import opened EvidenceCache
  import opened EvidenceLines
  import opened EvidenceChain

  /** How an index becomes stale: a rotation that pruned everything crashed before its flush. */
  lemma StaleIsReached(line: Bytes, now: int, later: int, parse: Bytes -> Parsed)
    requires OneLine(line) && IsLink(line, parse) && parse(line).rec.previous == [] && now >= FLUSH_SECONDS
    ensures var a, c := Append(line, now), Crash(None, true, 1, later);
      && Enabled(Empty(), a, parse)
      && var s := Next(Empty(), a, parse);
         && Enabled(s, c, parse)
         && var r := Next(s, c, parse);
            && r.archives == [] && r.active == [] && r.dirty == 0 && r.writtenAt == 0
            && r.index == Index(Applied(NoCache(), parse(line).rec), Some(|line|), [])
            && Stale(r)
  {
    hide AllLines, Rebuilt, Recovered, Lines, LineEnd, Applied, TornLine;
    assert Isolated([]) + line == line;
    var s := Next(Empty(), Append(line, now), parse);
    assert (s.archives + [Isolated(s.active)])[1..] == [];
  }

  /** Appends one after the other, each at its own clock. */
  function AppendedAll(s: Store, lines: seq<Bytes>, clocks: seq<int>, parse: Bytes -> Parsed): Store
    requires |clocks| == |lines| && forall l | l in lines :: parse(l).Record?
  {
    if lines == [] then s
    else
      var n := |lines| - 1;
      assert lines[n] in lines;
      Throttled(Appended(AppendedAll(s, lines[..n], clocks[..n], parse), lines[n], parse), clocks[n])
  }

  function Concat(lines: seq<Bytes>): Bytes {
    if lines == [] then [] else Concat(lines[..|lines| - 1]) + lines[|lines| - 1]
  }

  function AppliedAll(c: Cache, lines: seq<Bytes>, parse: Bytes -> Parsed): Cache
    requires forall l | l in lines :: parse(l).Record?
  {
    if lines == [] then c
    else
      assert lines[|lines| - 1] in lines;
      Applied(AppliedAll(c, lines[..|lines| - 1], parse), parse(lines[|lines| - 1]).rec)
  }

  /** Whole records that form part of a file. */
  ghost predicate Records(lines: seq<Bytes>, parse: Bytes -> Parsed) {
    forall l | l in lines :: OneLine(l) && parse(l).Record?
  }

  lemma {:induction false} EarlyIsUnwritten(s: Store, lines: seq<Bytes>, clocks: seq<int>, parse: Bytes -> Parsed)
    requires Records(lines, parse) && |clocks| == |lines| < FLUSH_CHANGES
    requires s.active == [] && s.dirty == 0 && s.writtenAt == 0 && forall t | t in clocks :: t < FLUSH_SECONDS
    ensures var r := AppendedAll(s, lines, clocks, parse);
      && r.archives == s.archives && r.active == Concat(lines) && r.index == s.index
      && r.dirty == |lines| && r.writtenAt == 0
      && (lines != [] ==> EndsLine(r.active))
  {
    hide TornLine, Applied, LineEnd;
    if lines != [] {
      var n := |lines| - 1;
      assert lines[n] in lines && clocks[n] in clocks;
      forall l | l in lines[..n] ensures OneLine(l) && parse(l).Record? { assert l in lines; }
      forall t | t in clocks[..n] ensures t < FLUSH_SECONDS { assert t in clocks; }
      EarlyIsUnwritten(s, lines[..n], clocks[..n], parse);
    }
  }

  lemma {:induction false} LinesOfConcat(lines: seq<Bytes>, parse: Bytes -> Parsed)
    requires Records(lines, parse)
    ensures Lines(Concat(lines)) == lines && (lines != [] ==> EndsLine(Concat(lines)))
  {
    hide Lines, LineEnd;
    if lines != [] {
      var n := |lines| - 1;
      assert lines[n] in lines;
      forall l | l in lines[..n] ensures OneLine(l) && parse(l).Record? { assert l in lines; }
      LinesOfConcat(lines[..n], parse);
      LinesSplit(Concat(lines[..n]), lines[n]);
      LinesOfOne(lines[n]);
      assert lines == lines[..n] + [lines[n]];
    } else {
      NoNewlineNoLines([]);
    }
  }

  lemma {:induction false} ConcatSplit(a: seq<Bytes>, b: seq<Bytes>)
    ensures Concat(a + b) == Concat(a) + Concat(b)
  {
    if b == [] {
      assert a + b == a;
    } else {
      var n := |b| - 1;
      assert (a + b)[..|a| + n] == a + b[..n] && (a + b)[|a| + n] == b[n];
      ConcatSplit(a, b[..n]);
    }
  }

  lemma {:induction false} ConcatOfLines(f: Bytes)
    requires f == [] || EndsLine(f)
    ensures Concat(Lines(f)) == f
    decreases |f|
  {
    hide LineEnd;
    if f != [] {
      var end := LineEnd(f, 0);
      assert f == f[..end] + f[end..];
      ConcatOfLines(f[end..]);
      ConcatSplit([f[..end]], Lines(f[end..]));
      assert Concat([f[..end]]) == f[..end] by { assert [f[..end]][..0] == []; }
    }
  }

  /** How many of the lines lie below byte `n`, if `n` is the end of one of them. */
  function CutAt(lines: seq<Bytes>, n: nat): (k: Option<nat>)
    ensures k.Some? ==> k.value <= |lines| && |Concat(lines[..k.value])| == n
  {
    if |Concat(lines)| == n then
      assert lines[..|lines|] == lines;
      Some(|lines|)
    else if lines == [] then None
    else
      var k := CutAt(lines[..|lines| - 1], n);
      assert k.Some? ==> lines[..|lines| - 1][..k.value] == lines[..k.value];
      k
  }

  lemma {:induction false} CutFound(lines: seq<Bytes>, k: nat)
    requires k <= |lines|
    ensures CutAt(lines, |Concat(lines[..k])|).Some?
  {
    if k < |lines| {
      assert lines[..|lines| - 1][..k] == lines[..k];
      CutFound(lines[..|lines| - 1], k);
    } else {
      assert lines[..k] == lines;
    }
  }

  lemma CutParts(lines: seq<Bytes>, k: nat, parse: Bytes -> Parsed)
    requires Records(lines, parse) && k <= |lines|
    ensures var f, n := Concat(lines), |Concat(lines[..k])|;
      n <= |f| && f[..n] == Concat(lines[..k]) && f[n..] == Concat(lines[k..]) && Boundary(f, n)
    ensures Lines(Concat(lines[k..])) == lines[k..] && Records(lines[k..], parse)
  {
    hide Lines, OneLine;
    assert lines == lines[..k] + lines[k..];
    ConcatSplit(lines[..k], lines[k..]);
    assert Records(lines[..k], parse) && Records(lines[k..], parse) by {
      assert forall l | l in lines[..k] :: l in lines;
      assert forall l | l in lines[k..] :: l in lines;
    }
    LinesOfConcat(lines[..k], parse);
    LinesOfConcat(lines[k..], parse);
  }

  lemma BoundaryIsCut(lines: seq<Bytes>, n: nat, parse: Bytes -> Parsed)
    requires Records(lines, parse)
    ensures Boundary(Concat(lines), n) <==> CutAt(lines, n).Some?
  {
    hide Lines, OneLine, CutAt;
    if CutAt(lines, n).Some? {
      CutIsThere(lines, n);
      CutParts(lines, CutAt(lines, n).value, parse);
    } else if Boundary(Concat(lines), n) {
      var f := Concat(lines);
      var p := f[..n];
      assert f == p + f[n..];
      LinesOfConcat(lines, parse);
      LinesSplit(p, f[n..]);
      ConcatOfLines(p);
      var k := |Lines(p)|;
      assert lines[..k] == Lines(p);
      CutFound(lines, k);
    }
  }

  lemma CutIsThere(lines: seq<Bytes>, n: nat)
    ensures CutAt(lines, n).Some? ==> CutAt(lines, n).value <= |lines| && |Concat(lines[..CutAt(lines, n).value])| == n
  {
  }

  lemma OneApplied(line: Bytes, parse: Bytes -> Parsed, from: Cache)
    requires parse(line).Record?
    ensures Rebuilt([line], parse, from) == Some(Applied(from, parse(line).rec))
  {
    var one := [line];
    assert one[1..] == [];
  }

  lemma {:induction false} RebuiltIsApplied(lines: seq<Bytes>, parse: Bytes -> Parsed, from: Cache)
    requires forall l | l in lines :: parse(l).Record?
    ensures Rebuilt(lines, parse, from) == Some(AppliedAll(from, lines, parse))
  {
    if lines != [] {
      var n := |lines| - 1;
      assert lines[n] in lines && lines == lines[..n] + [lines[n]];
      RebuiltIsApplied(lines[..n], parse, from);
      RebuiltSplit(lines[..n], [lines[n]], parse, from);
      OneApplied(lines[n], parse, AppliedAll(from, lines[..n], parse));
    }
  }

  /** What a restart reads where the stale length ends a record. */
  lemma TailIsApplied(lines: seq<Bytes>, k: nat, parse: Bytes -> Parsed, stale: Cache)
    requires Records(lines, parse) && k <= |lines|
    ensures var f, n := Concat(lines), |Concat(lines[..k])|;
      && n <= |f| && Boundary(f, n) && (n == |f| ==> k == |lines|)
      && Recovered(Lines(f[n..]), parse, stale) == Some(AppliedAll(stale, lines[k..], parse))
  {
    hide Lines, Rebuilt, Recovered, OneLine, Concat, AppliedAll;
    CutParts(lines, k, parse);
    RebuiltIsApplied(lines[k..], parse, stale);
    ReadableRebuilds(lines[k..], parse, stale);
    RecordsHaveBytes(lines[k..], parse);
  }

  lemma LoadedOverStale(archives: seq<Bytes>, active: Bytes, index: Index, n: nat, parse: Bytes -> Parsed)
    requires archives == [] && active != [] && index.manifest == [] && index.bytes == Some(n)
    ensures Loaded(archives, active, index, parse)
         == if !Boundary(active, n) && n != |active| then RebuildAll([], active, parse)
            else if n == |active| then Some(index.cache)
            else Recovered(Lines(active[n..]), parse, index.cache)
  {
    hide AllLines, Rebuilt, Recovered, Lines;
  }

  lemma NothingMoreApplied(c: Cache, lines: seq<Bytes>, parse: Bytes -> Parsed)
    ensures AppliedAll(c, lines[|lines|..], parse) == c
  {
  }

  lemma StaleLoads(active: Bytes, lines: seq<Bytes>, index: Index, n: nat, parse: Bytes -> Parsed)
    requires Records(lines, parse) && lines != [] && active == Concat(lines)
    requires index.manifest == [] && index.bytes == Some(n)
    ensures active != []
    ensures Loaded([], active, index, parse)
         == match CutAt(lines, n)
            case Some(k) => Some(AppliedAll(index.cache, lines[k..], parse))
            case None => Some(AppliedAll(NoCache(), lines, parse))
  {
    hide Lines, AllLines, Rebuilt, Recovered, OneLine, CutAt, Loaded, Concat, AppliedAll;
    RecordsHaveBytes(lines, parse);
    LinesOfConcat(lines, parse);
    BoundaryIsCut(lines, n, parse);
    OneFile(active);
    RebuiltIsApplied(lines, parse, NoCache());
    LoadedOverStale([], active, index, n, parse);
    CutIsThere(lines, n);
    if CutAt(lines, n).Some? {
      TailIsApplied(lines, CutAt(lines, n).value, parse, index.cache);
      NothingMoreApplied(index.cache, lines, parse);
    }
  }

  /** Without evidence a restart leaves a stale index behind, and only the throttle repairs it. Records
      appended before it is written again, and then a restart: where the stale length ends one of them,
      that one and those before it are forgotten and the cache goes on from the stale one; anywhere else
      all of them are found. */
  lemma EarlyAppendsAreForgotten(s: Store, n: nat, lines: seq<Bytes>, clocks: seq<int>, later: int, parse: Bytes -> Parsed)
    requires s.archives == [] && s.active == [] && s.dirty == 0 && s.writtenAt == 0
    requires s.index == Index(s.index.cache, Some(n), [])
    requires Records(lines, parse) && lines != [] && |clocks| == |lines| < FLUSH_CHANGES
    requires forall t | t in clocks :: t < FLUSH_SECONDS
    ensures var r := Restarted(AppendedAll(s, lines, clocks, parse), parse, later);
      && r.archives == [] && r.active == Concat(lines)
      && r.cache == match CutAt(lines, n)
                    case Some(k) => AppliedAll(s.index.cache, lines[k..], parse)
                    case None => AppliedAll(NoCache(), lines, parse)
  {
    hide OneLine, CutAt, AppendedAll, Loaded, Concat, AppliedAll, Reread, AnyEvidence;
    var t := AppendedAll(s, lines, clocks, parse);
    EarlyIsUnwritten(s, lines, clocks, parse);
    StaleLoads(t.active, lines, s.index, n, parse);
  }

  lemma OneFile(f: Bytes)
    ensures AllLines([] + [f]) == Lines(f)
  {
    hide Lines;
    assert ([] + [f])[..0] == [] && ([] + [f])[0] == f;
    assert AllLines([]) == [];
  }

  lemma {:induction false} RecordsHaveBytes(lines: seq<Bytes>, parse: Bytes -> Parsed)
    requires Records(lines, parse)
    ensures |lines| <= |Concat(lines)|
  {
    hide OneLine;
    if lines != [] {
      var n := |lines| - 1;
      assert lines[n] in lines && |lines[n]| > 0 by { OneLineHasBytes(lines[n], parse, lines); }
      forall l | l in lines[..n] ensures OneLine(l) && parse(l).Record? { assert l in lines; }
      RecordsHaveBytes(lines[..n], parse);
    }
  }

  lemma OneLineHasBytes(line: Bytes, parse: Bytes -> Parsed, lines: seq<Bytes>)
    requires Records(lines, parse) && line in lines
    ensures |line| > 0
  {
  }

  /** The links of a file of records and one more. */
  lemma LinksWithNext(r: Store, lines: seq<Bytes>, line: Bytes, parse: Bytes -> Parsed)
    requires r.archives == [] && r.active == Concat(lines) && Records(lines, parse) && lines != []
    requires OneLine(line) && IsLink(line, parse) && parse(line).rec.previous == r.cache.lastSha
    ensures LinksOf(Appended(r, line, parse), parse) == Links(lines, parse) + [Link(r.cache.lastSha, parse(line).rec.sha)]
  {
    hide Lines, AllLines, Links, Torn, OneLine, Isolated, Concat, Applied;
    LinesOfConcat(lines, parse);
    Whole(r.active);
    OneFile(r.active);
    AppendedLines(r.archives, r.active, line);
    assert lines + ([] + [line]) == lines + [line];
    LinksSplit(lines, [line], parse);
    LinksOne(line, parse);
  }

  /** The forgotten records cost the chain exactly when they are all there are: the next record then
      names the hash of the stale cache. */
  lemma EarlyAppendsForkIff(
    s: Store, n: nat, lines: seq<Bytes>, clocks: seq<int>, later: int, line: Bytes, parse: Bytes -> Parsed)
    requires s.archives == [] && s.active == [] && s.dirty == 0 && s.writtenAt == 0
    requires s.index == Index(s.index.cache, Some(n), [])
    requires Records(lines, parse) && lines != [] && |clocks| == |lines| < FLUSH_CHANGES
    requires forall t | t in clocks :: t < FLUSH_SECONDS
    requires Contiguous(Links(lines, parse)) && IsLink(lines[|lines| - 1], parse)
    requires var r := Restarted(AppendedAll(s, lines, clocks, parse), parse, later); Enabled(r, Append(line, later), parse)
    ensures var r := Restarted(AppendedAll(s, lines, clocks, parse), parse, later);
      Contiguous(LinksOf(Appended(r, line, parse), parse))
      <==> CutAt(lines, n) != Some(|lines|) || s.index.cache.lastSha == parse(lines[|lines| - 1]).rec.sha
  {
    hide Links, OneLine, CutAt, AppendedAll, Restarted, Contiguous, Concat, AppliedAll, LinksOf, Appended;
    var r := Restarted(AppendedAll(s, lines, clocks, parse), parse, later);
    EarlyAppendsAreForgotten(s, n, lines, clocks, later, parse);
    LinksWithNext(r, lines, line, parse);
    LastLink(lines, parse);
    LastShaOf(lines, n, s.index.cache, parse);
    NextLinkIff(Links(lines, parse), Link(r.cache.lastSha, parse(line).rec.sha));
  }

  lemma LastLink(lines: seq<Bytes>, parse: Bytes -> Parsed)
    requires lines != [] && IsLink(lines[|lines| - 1], parse)
    ensures var links := Links(lines, parse); links != [] && LastSha(links) == parse(lines[|lines| - 1]).rec.sha
  {
  }

  lemma LastShaOf(lines: seq<Bytes>, n: nat, stale: Cache, parse: Bytes -> Parsed)
    requires Records(lines, parse) && lines != [] && IsLink(lines[|lines| - 1], parse)
    ensures var last := parse(lines[|lines| - 1]).rec.sha;
      match CutAt(lines, n)
      case Some(k) => AppliedAll(stale, lines[k..], parse).lastSha == if k == |lines| then stale.lastSha else last
      case None => AppliedAll(NoCache(), lines, parse).lastSha == last
  {
    hide OneLine, Concat;
    CutIsThere(lines, n);
    hide CutAt;
    if CutAt(lines, n).Some? && CutAt(lines, n).value < |lines| {
      var rest := lines[CutAt(lines, n).value..];
      assert rest[|rest| - 1] == lines[|lines| - 1];
    }
  }

  lemma NextLinkIff(links: seq<Link>, link: Link)
    requires Contiguous(links) && links != []
    ensures Contiguous(links + [link]) <==> link.previous == LastSha(links)
  {
    var all := links + [link];
    assert all[|links|] == link && all[|links| - 1] == links[|links| - 1];
    forall k | 0 < k < |links| ensures all[k].previous == all[k - 1].sha {
      assert all[k] == links[k] && all[k - 1] == links[k - 1];
    }
  }
}
