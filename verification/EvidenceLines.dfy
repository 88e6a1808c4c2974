/** Lines of isolated, torn and pruned files, and what the readers make of them. */
module EvidenceLines {
  import opened Common
  import opened Text
  import opened EvidenceFiles
  import opened EvidenceCache

  /** Where the unfinished last line starts. */
  function TornStart(f: Bytes, at: nat): (start: nat)
    requires at <= |f|
    ensures at <= start <= |f|
    ensures start > at ==> f[start - 1] == Newline()
    ensures forall i | start <= i < |f| :: f[i] != Newline()
    decreases |f| - at
  {
    var end := LineEnd(f, at);
    if at == |f| || f[end - 1] != Newline() then at else TornStart(f, end)
  }

  /** The unfinished last line. */
  function Torn(f: Bytes): Bytes {
    f[TornStart(f, 0)..]
  }

  predicate IsLink(line: Bytes, parse: Bytes -> Parsed) {
    parse(line).Record? && parse(line).rec.sha != []
  }

  /** Finishing the unfinished line with a newline does not make it JSON: it is no whole record. */
  predicate TornUnreadable(f: Bytes, parse: Bytes -> Parsed) {
    Torn(f) != [] ==> parse(Torn(f) + [Newline()]) == NotJson
  }

  /** The line that isolating a file adds. */
  function TornLine(f: Bytes): seq<Bytes> {
    if Torn(f) == [] then [] else [Torn(f) + [Newline()]]
  }

  /** One complete line and nothing else. */
  predicate OneLine(line: Bytes) {
    line != [] && LineEnd(line, 0) == |line| && EndsLine(line)
  }

  predicate EndsWith(all: seq<Bytes>, tail: seq<Bytes>) {
    |tail| <= |all| && all[|all| - |tail|..] == tail
  }

  /** Every complete line is a record or not JSON at all. */
  predicate Readable(lines: seq<Bytes>, parse: Bytes -> Parsed) {
    forall l | l in lines :: parse(l).Record? || parse(l).NotJson?
  }

  /** A file is its complete lines and then its unfinished one. */
  lemma TornIsRest(f: Bytes)
    ensures var n := |f| - |Torn(f)|; 0 <= n <= |f| && f[n..] == Torn(f) && (n == 0 || f[n - 1] == Newline())
    ensures Torn(f) == [] <==> f == [] || EndsLine(f)
    ensures forall i | 0 <= i < |Torn(f)| :: Torn(f)[i] != Newline()
  {
    hide TornStart;
  }

  lemma NoNewlineNoLines(f: Bytes)
    requires forall i | 0 <= i < |f| :: f[i] != Newline()
    ensures Lines(f) == [] && Torn(f) == f
  {
    hide LineEnd;
    if f != [] {
      assert f[LineEnd(f, 0) - 1] != Newline();
      assert TornStart(f, 0) == 0;
    }
    assert f[0..] == f;
  }

  lemma {:induction false} LineEndOfTorn(t: Bytes, from: nat)
    requires from <= |t| && forall i | 0 <= i < |t| :: t[i] != Newline()
    ensures LineEnd(t + [Newline()], from) == |t| + 1
    decreases |t| - from
  {
    var f := t + [Newline()];
    if from < |t| {
      assert f[from] == t[from];
      LineEndOfTorn(t, from + 1);
    } else {
      assert f[from] == Newline();
    }
  }

  lemma Whole(f: Bytes)
    requires f == [] || EndsLine(f)
    ensures Torn(f) == []
  {
    TornIsRest(f);
  }

  lemma LinesOfOne(line: Bytes)
    requires OneLine(line)
    ensures Lines(line) == [line]
  {
    assert line[..|line|] == line;
    assert Lines(line[|line|..]) == [];
  }

  lemma TornParts(f: Bytes)
    requires Torn(f) != []
    ensures var t := Torn(f); var p := f[..|f| - |t|];
      && f == p + t && Isolated(f) == p + (t + [Newline()])
      && (p == [] || EndsLine(p)) && forall i | 0 <= i < |t| :: t[i] != Newline()
  {
    hide Torn;
    TornIsRest(f);
  }

  lemma TornPartLines(p: Bytes, t: Bytes)
    requires p == [] || EndsLine(p)
    requires t != [] && forall i | 0 <= i < |t| :: t[i] != Newline()
    ensures Lines(p + t) == Lines(p) && Lines(p + (t + [Newline()])) == Lines(p) + [t + [Newline()]]
  {
    hide Lines, LineEnd;
    LinesSplit(p, t);
    LinesSplit(p, t + [Newline()]);
    NoNewlineNoLines(t);
    LineEndOfTorn(t, 0);
    LinesOfOne(t + [Newline()]);
  }

  lemma IsolatedLines(f: Bytes)
    ensures Lines(Isolated(f)) == Lines(f) + TornLine(f)
    ensures Isolated(f) == [] || EndsLine(Isolated(f))
  {
    hide Lines, Torn, LineEnd;
    TornIsRest(f);
    if Torn(f) != [] {
      TornParts(f);
      TornPartLines(f[..|f| - |Torn(f)|], Torn(f));
    }
  }

  /** Appending a line adds the isolated torn line and the line itself. */
  lemma AppendedLines(archives: seq<Bytes>, active: Bytes, line: Bytes)
    requires OneLine(line)
    ensures AllLines(archives + [Isolated(active) + line]) == AllLines(archives + [active]) + (TornLine(active) + [line])
  {
    hide Lines, Torn, Isolated, AllLines, LineEnd, TornLine;
    var p := Isolated(active);
    IsolatedLines(active);
    LinesSplit(p, line);
    LinesOfOne(line);
    ActiveLast(archives, active);
    ActiveLast(archives, p + line);
    JoinThree(Lines(active), TornLine(active), [line]);
    JoinThree(AllLines(archives), Lines(active), TornLine(active) + [line]);
  }

  /** The beginning of a line that a crash left behind adds only the isolated torn line before it. */
  lemma TornLines(archives: seq<Bytes>, active: Bytes, written: Bytes)
    requires forall i | 0 <= i < |written| :: written[i] != Newline()
    ensures AllLines(archives + [Isolated(active) + written]) == AllLines(archives + [active]) + TornLine(active)
  {
    hide Lines, Torn, Isolated, AllLines, LineEnd, TornLine;
    var p := Isolated(active);
    IsolatedLines(active);
    LinesSplit(p, written);
    NoNewlineNoLines(written);
    assert Lines(p) + [] == Lines(p);
    ActiveLast(archives, active);
    ActiveLast(archives, p + written);
    JoinThree(AllLines(archives), Lines(active), TornLine(active));
  }

  /** A rotation adds only the isolated torn line. */
  lemma RotatedLines(archives: seq<Bytes>, active: Bytes)
    ensures AllLines(archives + [Isolated(active)] + [[]]) == AllLines(archives + [active]) + TornLine(active)
  {
    hide Lines, Torn, AllLines, LineEnd, TornLine;
    TornLines(archives, active, []);
    assert Isolated(active) + [] == Isolated(active);
    hide Isolated;
    ActiveLast(archives + [Isolated(active)], []);
    NoNewlineNoLines([]);
    assert AllLines(archives + [Isolated(active)]) + [] == AllLines(archives + [Isolated(active)]);
  }

  /** Dropping the oldest archives drops the first lines. */
  lemma {:induction false} PrunedLines(archives: seq<Bytes>, active: Bytes, k: nat)
    requires k <= |archives|
    ensures exists gone :: AllLines(archives + [active]) == gone + AllLines(archives[k..] + [active])
    decreases k
  {
    hide Lines, AllLines;
    if k == 0 {
      assert archives[0..] == archives;
      assert AllLines(archives + [active]) == [] + AllLines(archives[k..] + [active]);
    } else {
      var files := archives + [active];
      DropFirst(files);
      assert files[1..] == archives[1..] + [active];
      PrunedLines(archives[1..], active, k - 1);
      assert archives[1..][k - 1..] == archives[k..];
      var gone :| AllLines(archives[1..] + [active]) == gone + AllLines(archives[k..] + [active]);
      JoinThree(Lines(files[0]), gone, AllLines(archives[k..] + [active]));
      assert AllLines(archives + [active]) == (Lines(files[0]) + gone) + AllLines(archives[k..] + [active]);
    }
  }

  /** The cache kept in memory over an append is the cache that a rebuild would find. */
  lemma AppendedIsApplied(archives: seq<Bytes>, active: Bytes, line: Bytes, parse: Bytes -> Parsed, cache: Cache)
    requires RebuildAll(archives, active, parse) == Some(cache) && TornUnreadable(active, parse)
    requires OneLine(line) && parse(line).Record?
    ensures RebuildAll(archives, Isolated(active) + line, parse) == Some(Applied(cache, parse(line).rec))
  {
    hide Lines, Isolated, AllLines, LineEnd, Applied;
    AppendedLines(archives, active, line);
    RebuiltSplit(AllLines(archives + [active]), TornLine(active) + [line], parse, NoCache());
    ReadMore(TornLine(active), line, parse, cache);
  }

  lemma ReadMore(torn: seq<Bytes>, line: Bytes, parse: Bytes -> Parsed, cache: Cache)
    requires parse(line).Record? && |torn| <= 1 && forall l | l in torn :: parse(l) == NotJson
    ensures Rebuilt(torn + [line], parse, cache) == Some(Applied(cache, parse(line).rec))
  {
    assert Rebuilt([line], parse, cache) == Some(Applied(cache, parse(line).rec)) by {
      assert [line][1..] == [];
    }
    if |torn| == 1 {
      assert (torn + [line])[0] == torn[0] && (torn + [line])[1..] == [line];
      assert torn[0] in torn;
    } else {
      assert torn + [line] == [line];
    }
  }

  lemma EndsWithMore(all: seq<Bytes>, tail: seq<Bytes>, more: seq<Bytes>)
    requires EndsWith(all, tail)
    ensures EndsWith(all + more, tail + more)
  {
    var n := |all| - |tail|;
    assert (all + more)[n..] == all[n..] + more;
  }

  lemma EndsWithLess(all: seq<Bytes>, gone: seq<Bytes>, rest: seq<Bytes>)
    requires EndsWith(all, gone + rest)
    ensures EndsWith(all, rest)
  {
    var n := |all| - |gone + rest|;
    assert all[|all| - |rest|..] == all[n..][|gone|..];
    assert (gone + rest)[|gone|..] == rest;
  }

  lemma ReadableParts(a: seq<Bytes>, b: seq<Bytes>, parse: Bytes -> Parsed)
    ensures Readable(a + b, parse) <==> Readable(a, parse) && Readable(b, parse)
  {
    if Readable(a + b, parse) {
      forall l | l in a ensures parse(l).Record? || parse(l).NotJson? { assert l in a + b; }
      forall l | l in b ensures parse(l).Record? || parse(l).NotJson? { assert l in a + b; }
    }
  }

  lemma {:induction false} ReadableRebuilds(lines: seq<Bytes>, parse: Bytes -> Parsed, from: Cache)
    requires Readable(lines, parse)
    ensures Rebuilt(lines, parse, from).Some? && Recovered(lines, parse, from) == Rebuilt(lines, parse, from)
  {
    if lines != [] {
      assert lines == [lines[0]] + lines[1..];
      ReadableParts([lines[0]], lines[1..], parse);
      assert lines[0] in lines;
      match parse(lines[0]) {
        case NotJson => ReadableRebuilds(lines[1..], parse, from);
        case Record(r) => ReadableRebuilds(lines[1..], parse, Applied(from, r));
      }
    }
  }

  lemma TornLineIsQuiet(f: Bytes, parse: Bytes -> Parsed)
    requires TornUnreadable(f, parse)
    ensures |TornLine(f)| <= 1 && (forall l | l in TornLine(f) :: parse(l) == NotJson)
    ensures Readable(TornLine(f), parse) && Links(TornLine(f), parse) == []
  {
    if Torn(f) != [] {
      LinksOne(Torn(f) + [Newline()], parse);
    }
    hide Torn;
  }

  lemma QuietLinks(lines: seq<Bytes>, f: Bytes, parse: Bytes -> Parsed)
    requires TornUnreadable(f, parse)
    ensures Links(lines + TornLine(f), parse) == Links(lines, parse)
  {
    TornLineIsQuiet(f, parse);
    LinksSplit(lines, TornLine(f), parse);
    hide TornLine, Links;
    assert Links(lines, parse) + [] == Links(lines, parse);
  }

  lemma LaterLinks(gone: seq<Bytes>, rest: seq<Bytes>, parse: Bytes -> Parsed)
    requires Contiguous(Links(gone + rest, parse))
    ensures Contiguous(Links(rest, parse))
  {
    LinksSplit(gone, rest, parse);
    hide Links;
    var a, b, all := Links(gone, parse), Links(rest, parse), Links(gone + rest, parse);
    forall k | 0 < k < |b| ensures b[k].previous == b[k - 1].sha {
      assert b[k] == all[|a| + k] && b[k - 1] == all[|a| + k - 1];
    }
  }

  lemma ChainGrows(links: seq<Link>, link: Link)
    requires Contiguous(links) && (links != [] ==> link.previous == LastSha(links))
    ensures Contiguous(links + [link])
  {
  }

  lemma LineEndsIt(p: Bytes, line: Bytes)
    requires OneLine(line)
    ensures Torn(p + line) == []
  {
    Whole(p + line);
  }

  lemma PrefixStays(f: Bytes, line: Bytes, n: nat)
    requires n <= |f|
    ensures n <= |Isolated(f) + line| && (Isolated(f) + line)[..n] == f[..n]
  {
  }

  lemma IsolatedNotEmpty(f: Bytes)
    requires f != []
    ensures Isolated(f) != []
  {
  }

  lemma QuietRebuilds(more: seq<Bytes>, parse: Bytes -> Parsed, from: Cache)
    requires |more| <= 1 && forall l | l in more :: parse(l) == NotJson
    ensures Rebuilt(more, parse, from) == Some(from)
  {
    if more != [] {
      assert more[1..] == [] && more[0] in more;
    }
  }

  lemma NothingNew(f: Bytes)
    requires forall i | 0 <= i < |f| :: f[i] != Newline()
    ensures AllLines([] + [f]) == []
  {
    hide Lines;
    NoNewlineNoLines(f);
    assert ([] + [f])[..0] == [] && ([] + [f])[0] == f;
  }

  lemma EndsWithNothing(all: seq<Bytes>)
    ensures EndsWith(all, [])
  {
  }

  lemma ArchivesAreEvidence(archives: seq<Bytes>, active: Bytes)
    requires forall a | a in archives :: EndsLine(a)
    ensures archives != [] ==> AnyEvidence(archives, active)
  {
    if archives != [] {
      assert archives[0] in archives;
    }
  }

  lemma ForkedIff(links: seq<Link>, a: Link, b: Link)
    requires Contiguous(links) && (links != [] ==> b.previous == LastSha(links))
    ensures Contiguous(links + [a] + [b]) <==> a.sha == b.previous && (links != [] ==> a.previous == b.previous)
  {
    var all := links + [a] + [b];
    assert all[|links|] == a && all[|links| + 1] == b;
    assert links != [] ==> all[|links| - 1] == links[|links| - 1];
    forall k | 0 < k < |links| ensures all[k].previous == all[k - 1].sha {
      assert all[k] == links[k] && all[k - 1] == links[k - 1];
    }
  }
}
