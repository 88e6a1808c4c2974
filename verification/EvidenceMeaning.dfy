/** What a rebuild reads off the evidence, in terms of its lines alone; and that an unchanged order is
    not captured twice. */
module EvidenceMeaning {
  import opened Common
  import opened Text
  import opened EvidenceFiles
  import opened EvidenceCache
  import opened EvidenceLines
  import opened EvidenceChain

  // ----- what the lines say -----------------------------------------------------------------

  /** A snapshot of the order under this key, with a fingerprint. */
  predicate Snaps(line: Bytes, parse: Bytes -> Parsed, key: Text) {
    var p := parse(line);
    p.Record? && p.rec.kind == OrderSnapshot && p.rec.key == key && p.rec.fingerprint != []
  }

  /** The last such line is the `i`th and carries `f`. */
  ghost predicate LastSnap(lines: seq<Bytes>, parse: Bytes -> Parsed, key: Text, i: nat, f: Text) {
    && i < |lines| && Snaps(lines[i], parse, key) && parse(lines[i]).rec.fingerprint == f
    && forall j | i < j < |lines| :: !Snaps(lines[j], parse, key)
  }

  function RecordsAt(lines: seq<Bytes>, parse: Bytes -> Parsed): set<nat> {
    set i | 0 <= i < |lines| && parse(lines[i]).Record?
  }

  /** A record with a time; for exports, a manifest with one. */
  predicate Dated(line: Bytes, parse: Bytes -> Parsed, manifest: bool) {
    var p := parse(line);
    p.Record? && p.rec.capturedAt != [] && (manifest ==> p.rec.kind == ExportManifest)
  }

  /** The last such line is the `i`th and was written at `at`. */
  ghost predicate LastDated(lines: seq<Bytes>, parse: Bytes -> Parsed, manifest: bool, i: nat, at: Text) {
    && i < |lines| && Dated(lines[i], parse, manifest) && parse(lines[i]).rec.capturedAt == at
    && forall j | i < j < |lines| :: !Dated(lines[j], parse, manifest)
  }

  /** The time of the last such line, if there is one. */
  ghost predicate LastDate(lines: seq<Bytes>, parse: Bytes -> Parsed, manifest: bool, at: Text) {
    if exists l :: l in lines && Dated(l, parse, manifest) then
      exists i: nat :: LastDated(lines, parse, manifest, i, at)
    else at == []
  }

  // ----- what a rebuild makes of them -------------------------------------------------------

  /** The last line of a rebuild is applied to the rebuild of the others. */
  lemma RebuiltLast(lines: seq<Bytes>, parse: Bytes -> Parsed)
    requires lines != [] && Rebuilt(lines, parse, NoCache()).Some?
    ensures var n := |lines| - 1; var p := parse(lines[n]);
      var before := Rebuilt(lines[..n], parse, NoCache());
      && before.Some? && (p.Record? || p.NotJson?)
      && Rebuilt(lines, parse, NoCache()).value == if p.Record? then Applied(before.value, p.rec) else before.value
  {
    hide Rebuilt, Applied;
    var n := |lines| - 1;
    assert lines == lines[..n] + [lines[n]];
    RebuiltSplit(lines[..n], [lines[n]], parse, NoCache());
    var before := Rebuilt(lines[..n], parse, NoCache());
    if before.Some? { RebuiltOne(lines[n], parse, before.value); }
  }

  lemma RebuiltOne(line: Bytes, parse: Bytes -> Parsed, from: Cache)
    ensures var p := parse(line);
      Rebuilt([line], parse, from) == if p.Record? then Some(Applied(from, p.rec)) else if p.NotJson? then Some(from) else None
  {
    hide Applied;
    var one := [line];
    assert one[1..] == [];
  }

  /** A key is known by a fingerprint exactly when the last snapshot of that key carries it. */
  lemma {:induction false} RebuiltKnows(lines: seq<Bytes>, parse: Bytes -> Parsed, key: Text, f: Text)
    requires Rebuilt(lines, parse, NoCache()).Some?
    ensures Known(Rebuilt(lines, parse, NoCache()).value, key, f)
       <==> exists i: nat :: LastSnap(lines, parse, key, i, f)
  {
    if lines != [] {
      var n := |lines| - 1;
      RebuiltLast(lines, parse);
      RebuiltKnows(lines[..n], parse, key, f);
      hide Rebuilt;
      if Snaps(lines[n], parse, key) {
        if parse(lines[n]).rec.fingerprint == f { assert LastSnap(lines, parse, key, n, f); }
      } else {
        forall i: nat ensures LastSnap(lines, parse, key, i, f) <==> LastSnap(lines[..n], parse, key, i, f) {
          EarlierSnap(lines, parse, key, i, f);
        }
      }
    }
  }

  lemma EarlierSnap(lines: seq<Bytes>, parse: Bytes -> Parsed, key: Text, i: nat, f: Text)
    requires lines != [] && !Snaps(lines[|lines| - 1], parse, key)
    ensures LastSnap(lines, parse, key, i, f) <==> LastSnap(lines[..|lines| - 1], parse, key, i, f)
  {
    var n := |lines| - 1;
    if LastSnap(lines[..n], parse, key, i, f) {
      forall j | i < j < |lines| ensures !Snaps(lines[j], parse, key) { if j < n { assert lines[..n][j] == lines[j]; } }
    }
  }

  /** The number of records. */
  lemma {:induction false} RebuiltCounts(lines: seq<Bytes>, parse: Bytes -> Parsed)
    requires Rebuilt(lines, parse, NoCache()).Some?
    ensures Rebuilt(lines, parse, NoCache()).value.count == |RecordsAt(lines, parse)|
  {
    if lines != [] {
      var n := |lines| - 1;
      RebuiltLast(lines, parse);
      RebuiltCounts(lines[..n], parse);
      hide Rebuilt;
      var last: set<nat> := if parse(lines[n]).Record? then {n} else {};
      assert RecordsAt(lines, parse) == RecordsAt(lines[..n], parse) + last;
    }
  }

  lemma LastDateStep(lines: seq<Bytes>, parse: Bytes -> Parsed, manifest: bool, at: Text)
    requires lines != []
    requires LastDate(lines[..|lines| - 1], parse, manifest, at)
    ensures var last := lines[|lines| - 1];
      LastDate(lines, parse, manifest, if Dated(last, parse, manifest) then parse(last).rec.capturedAt else at)
  {
    var n := |lines| - 1;
    assert lines == lines[..n] + [lines[n]];
    if Dated(lines[n], parse, manifest) {
      assert lines[n] in lines && LastDated(lines, parse, manifest, n, parse(lines[n]).rec.capturedAt);
    } else if l :| l in lines && Dated(l, parse, manifest) {
      assert l in lines[..n];
      var i: nat :| LastDated(lines[..n], parse, manifest, i, at);
      forall j | i < j < |lines| ensures !Dated(lines[j], parse, manifest) { if j < n { assert lines[..n][j] == lines[j]; } }
      assert LastDated(lines, parse, manifest, i, at);
    }
  }

  /** The times of the last record and of the last export manifest that have one. */
  lemma {:induction false} RebuiltDates(lines: seq<Bytes>, parse: Bytes -> Parsed)
    requires Rebuilt(lines, parse, NoCache()).Some?
    ensures var c := Rebuilt(lines, parse, NoCache()).value;
      LastDate(lines, parse, false, c.lastCapture) && LastDate(lines, parse, true, c.lastExport)
  {
    if lines != [] {
      var n := |lines| - 1;
      RebuiltLast(lines, parse);
      RebuiltDates(lines[..n], parse);
      var before := Rebuilt(lines[..n], parse, NoCache()).value;
      hide Rebuilt, LastDate;
      LastDateStep(lines, parse, false, before.lastCapture);
      LastDateStep(lines, parse, true, before.lastExport);
    }
  }

  // ----- over a run -------------------------------------------------------------------------

  /** Lines that are not JSON leave the cache as it is. */
  lemma QuietRebuild(lines: seq<Bytes>, more: seq<Bytes>, parse: Bytes -> Parsed)
    requires |more| <= 1 && forall l | l in more :: parse(l) == NotJson
    ensures Rebuilt(lines + more, parse, NoCache()) == Rebuilt(lines, parse, NoCache())
  {
    RebuiltSplit(lines, more, parse, NoCache());
    if more != [] {
      assert more[1..] == [];
    }
  }

  lemma FilesMakeCache(s: Store, parse: Bytes -> Parsed)
    requires Inv(s, parse) && Exact(s)
    ensures RebuildAll(s.archives, s.active, parse) == Some(s.cache) && FilesSound(s, parse)
  {
  }

  /** Where nothing is pruned only an append changes the cache: flushing, rotating, crashing and restarting
      through index, tail or files leave it as it was. */
  lemma OnlyAppendsChange(s: Store, a: Action, parse: Bytes -> Parsed)
    requires Inv(s, parse) && Exact(s) && Enabled(s, a, parse) && PrunesNothing(a)
    ensures Next(s, a, parse).cache == if a.Append? then Applied(s.cache, parse(a.line).rec) else s.cache
  {
    hide Exact, Inv, TornLine, TornUnreadable, Isolated, Applied, AllLines, Rebuilt, Loaded, Links, Contiguous, Readable;
    if a.Crash? {
      var t := Next(s, a, parse);
      ExactIsFresh(s, a);
      StepKeeps(s, a, parse);
      StepIsExact(s, a, parse);
      FilesMakeCache(s, parse);
      FilesMakeCache(t, parse);
      AllLinesOfCrash(s, a.torn, a.renamed, parse);
      TornLineIsQuiet(s.active, parse);
      QuietRebuild(LinesOf(s), if a.torn.Some? || a.renamed then TornLine(s.active) else [], parse);
      RestartKeepsFiles(Crashed(s, a.torn, a.renamed, 0), parse, a.now);
    }
  }

  lemma RestartKeepsFiles(s: Store, parse: Bytes -> Parsed, now: int)
    ensures var r := Restarted(s, parse, now); r.archives == s.archives && r.active == s.active
  {
    hide Loaded, AnyEvidence, Reread;
  }

  /** The index is written at the tenth change, or ten seconds after it was written last; until then the
      change only counts. */
  lemma ThrottledIs(s: Store, now: int)
    ensures Throttled(s, now) ==
      if s.dirty >= 9 || now >= s.writtenAt + 10
      then s.(index := Index(s.cache, Some(|s.active|), s.archives), dirty := 0, writtenAt := now, indexed := s.known)
      else s.(dirty := s.dirty + 1)
  {
  }

  /** After an order was captured with some fingerprint, every later state of a run that prunes nothing
      knows it by that fingerprint, restarts and all, until another snapshot of it is appended - so an
      unforced capture of the unchanged order is skipped. */
  lemma {:induction false} CapturedIsKnown(
    run: seq<Store>, acts: seq<Action>, parse: Bytes -> Parsed, i: nat, j: nat, key: Text)
    requires IsRun(run, acts, parse) && (forall a | a in acts :: PrunesNothing(a)) && i < j < |run|
    requires acts[i].Append? && Snaps(acts[i].line, parse, key)
    requires forall x | i < x < j && acts[x].Append? :: !Snaps(acts[x].line, parse, key)
    ensures Known(run[j].cache, key, parse(acts[i].line).rec.fingerprint)
    decreases j
  {
    hide Inv, Exact, Enabled, Next, PrunesNothing;
    var s, a := run[j - 1], acts[j - 1];
    UnprunedKeeps(run, acts, parse, j - 1);
    assert a in acts && Enabled(s, a, parse) && run[j] == Next(s, a, parse);
    OnlyAppendsChange(s, a, parse);
    AppendReads(s, a, parse);
    if i < j - 1 {
      CapturedIsKnown(run, acts, parse, i, j - 1, key);
    }
  }

  lemma AppendReads(s: Store, a: Action, parse: Bytes -> Parsed)
    requires Enabled(s, a, parse)
    ensures a.Append? ==> parse(a.line).Record?
  {
  }
}
