/** Closed-shift bundles and the cloud-acknowledgement tracker. */
module ShiftClose {
  import opened Common
  import opened Text

  // ----- the local bundle -------------------------------------------------------------------

  /** A tender of a close manifest: its UUID and its three amounts when they can be read. */
  datatype RawTender =
    | NotARow
    | RawTender(uuid: Option<Text>, kind: Text, expected: Option<int>, counted: Option<int>, difference: Option<int>)

  datatype Manifest = NoManifest | Manifest(version: Option<int>, tenders: Option<seq<RawTender>>)

  /** A live settlement row of the shift. */
  datatype Row = Row(uuid: Text, kind: Text, expected: Option<int>, counted: Option<int>, difference: Option<int>)

  datatype Shift = Shift(uuid: Text, id: int, manifest: Manifest, rows: seq<Row>)

  datatype Fault = MissingManifest | BadVersion | NoTenders | MalformedTender | BadUuid | BadAmount | RepeatedUuid | RowsDiffer

  datatype Bundle = Bundle(uuid: Text, id: int, version: Option<int>, digest: Option<Text>, error: Option<Fault>)

  predicate Readable(t: RawTender) {
    && t.RawTender? && t.uuid.Some? && t.kind != []
    && t.expected.Some? && t.counted.Some? && t.difference.Some?
  }

  function TenderFault(t: RawTender): Option<Fault> {
    if t.NotARow? then Some(MalformedTender)
    else if t.uuid.None? then Some(BadUuid)
    else if t.kind == [] || t.expected.None? || t.counted.None? || t.difference.None? then Some(BadAmount)
    else None
  }

  function AsRow(t: RawTender): Row
    requires Readable(t)
  {
    Row(t.uuid.value, t.kind, t.expected, t.counted, t.difference)
  }

  /** The expected rows by UUID, or the first fault. */
  function Expected(ts: seq<RawTender>): Result<map<Text, Row>, Fault> {
    if ts == [] then Ok(map[])
    else
      match Expected(ts[..|ts| - 1])
      case Err(fault) => Err(fault)
      case Ok(rows) =>
        var t := ts[|ts| - 1];
        if TenderFault(t).Some? then Err(TenderFault(t).value)
        else if t.uuid.value in rows then Err(RepeatedUuid)
        else Ok(rows[t.uuid.value := AsRow(t)])
  }

  function Actual(rows: seq<Row>): map<Text, Row> {
    if rows == [] then map[] else Actual(rows[..|rows| - 1])[rows[|rows| - 1].uuid := rows[|rows| - 1]]
  }

  /** What the tracker knows of a closed shift; `digest` is the canonical hash of its manifest. */
  function LocalBundle(s: Shift, digest: Manifest -> Text): Bundle {
    if s.manifest.NoManifest? then Bundle(s.uuid, s.id, None, None, Some(MissingManifest))
    else if s.manifest.version.None? then Bundle(s.uuid, s.id, None, None, Some(BadVersion))
    else
      var b := Bundle(s.uuid, s.id, s.manifest.version, Some(digest(s.manifest)), None);
      if s.manifest.tenders.None? then b.(error := Some(NoTenders))
      else
        match Expected(s.manifest.tenders.value)
        case Err(fault) => b.(error := Some(fault))
        case Ok(expected) => if expected == Actual(s.rows) then b else b.(error := Some(RowsDiffer))
  }

  ghost predicate DistinctRows(rows: seq<Row>) {
    forall i, j | 0 <= i < j < |rows| :: rows[i].uuid != rows[j].uuid
  }

  ghost predicate DistinctTenders(ts: seq<RawTender>) {
    && (forall t | t in ts :: Readable(t))
    && forall i, j | 0 <= i < j < |ts| && ts[i].RawTender? && ts[j].RawTender? :: ts[i].uuid != ts[j].uuid
  }

  predicate Names(t: RawTender, k: Text) {
    Readable(t) && t.uuid.value == k
  }

  lemma {:induction false} ExpectedHas(ts: seq<RawTender>)
    requires Expected(ts).Ok?
    ensures forall t | t in ts :: Readable(t)
    ensures forall k :: k in Expected(ts).value <==> exists t :: t in ts && Names(t, k)
    ensures forall t | t in ts && Readable(t) :: t.uuid.value in Expected(ts).value && Expected(ts).value[t.uuid.value] == AsRow(t)
  {
    if ts != [] {
      var n := |ts| - 1;
      ExpectedHas(ts[..n]);
      assert ts == ts[..n] + [ts[n]];
      var rows, t := Expected(ts[..n]).value, ts[n];
      assert Readable(t) && Expected(ts).value == rows[t.uuid.value := AsRow(t)];
      hide Expected;
      forall k | k in Expected(ts).value ensures exists t :: t in ts && Names(t, k) {
        if k in rows {
          var u :| u in ts[..n] && Names(u, k);
          assert u in ts;
        } else {
          assert t in ts && Names(t, k);
        }
      }
      forall u | u in ts && Readable(u)
        ensures u.uuid.value in Expected(ts).value && Expected(ts).value[u.uuid.value] == AsRow(u)
      {
        if u in ts[..n] { assert Names(u, u.uuid.value); }
      }
      forall k, u | u in ts && Names(u, k) ensures k in Expected(ts).value {
      }
    }
  }

  lemma TendersGrow(ts: seq<RawTender>, t: RawTender)
    ensures DistinctTenders(ts + [t])
       <==> DistinctTenders(ts) && Readable(t) && forall u | u in ts && Readable(u) :: u.uuid.value != t.uuid.value
  {
    var all := ts + [t];
    assert forall u | u in ts :: u in all;
    assert all[|ts|] == t && t in all;
    if DistinctTenders(all) {
      forall u | u in ts && Readable(u) ensures u.uuid.value != t.uuid.value {
        var i :| 0 <= i < |ts| && ts[i] == u;
        assert all[i] == u;
      }
      forall i, j | 0 <= i < j < |ts| && ts[i].RawTender? && ts[j].RawTender? ensures ts[i].uuid != ts[j].uuid {
        assert all[i] == ts[i] && all[j] == ts[j];
      }
    }
    if DistinctTenders(ts) && Readable(t) && forall u | u in ts && Readable(u) :: u.uuid.value != t.uuid.value {
      forall i, j | 0 <= i < j < |all| && all[i].RawTender? && all[j].RawTender? ensures all[i].uuid != all[j].uuid {
        assert all[i] == ts[i] && ts[i] in ts;
        if j < |ts| { assert all[j] == ts[j]; }
      }
    }
  }

  lemma {:induction false} ExpectedIff(ts: seq<RawTender>)
    ensures Expected(ts).Ok? <==> DistinctTenders(ts)
  {
    if ts != [] {
      var n := |ts| - 1;
      ExpectedIff(ts[..n]);
      assert ts == ts[..n] + [ts[n]];
      TendersGrow(ts[..n], ts[n]);
      hide DistinctTenders;
      if Expected(ts[..n]).Ok? {
        ExpectedHas(ts[..n]);
        if Readable(ts[n]) && ts[n].uuid.value in Expected(ts[..n]).value {
          var t :| t in ts[..n] && Names(t, ts[n].uuid.value);
        }
      }
    }
  }

  lemma {:induction false} ActualIs(rows: seq<Row>)
    requires DistinctRows(rows)
    ensures forall k :: k in Actual(rows) <==> exists r :: r in rows && r.uuid == k
    ensures forall r | r in rows :: r.uuid in Actual(rows) && Actual(rows)[r.uuid] == r
  {
    if rows != [] {
      var n := |rows| - 1;
      ActualIs(rows[..n]);
      assert rows == rows[..n] + [rows[n]];
      forall r | r in rows[..n] ensures r.uuid != rows[n].uuid {
        var i :| 0 <= i < n && rows[i] == r;
      }
    }
  }

  /** The manifest's tenders and the shift's live rows are the same set, one to one. */
  ghost predicate OneToOne(ts: seq<RawTender>, rows: seq<Row>) {
    && DistinctTenders(ts)
    && (forall t | t in ts && Readable(t) :: AsRow(t) in rows)
    && (forall r | r in rows :: exists t :: t in ts && Readable(t) && AsRow(t) == r)
  }

  /** A bundle is accepted locally exactly when its manifest is whole and its tenders and the live rows
      match one to one. */
  lemma BundleIsExact(s: Shift, digest: Manifest -> Text)
    requires DistinctRows(s.rows)
    ensures LocalBundle(s, digest).error.None? <==>
      && s.manifest.Manifest? && s.manifest.version.Some? && s.manifest.tenders.Some?
      && OneToOne(s.manifest.tenders.value, s.rows)
    ensures LocalBundle(s, digest).error.None? ==>
      LocalBundle(s, digest).digest == Some(digest(s.manifest)) && LocalBundle(s, digest).version == s.manifest.version
  {
    if s.manifest.Manifest? && s.manifest.version.Some? && s.manifest.tenders.Some? {
      var ts := s.manifest.tenders.value;
      ExpectedIff(ts);
      ActualIs(s.rows);
      if Expected(ts).Ok? {
        ExpectedHas(ts);
        SameMaps(ts, s.rows, Expected(ts).value, Actual(s.rows));
      }
    }
    hide Expected, Actual;
  }

  lemma SameMaps(ts: seq<RawTender>, rows: seq<Row>, expected: map<Text, Row>, actual: map<Text, Row>)
    requires DistinctTenders(ts)
    requires forall k :: k in expected <==> exists t :: t in ts && Names(t, k)
    requires forall t | t in ts && Readable(t) :: t.uuid.value in expected && expected[t.uuid.value] == AsRow(t)
    requires forall k :: k in actual <==> exists r :: r in rows && r.uuid == k
    requires forall r | r in rows :: r.uuid in actual && actual[r.uuid] == r
    ensures expected == actual <==> OneToOne(ts, rows)
  {
    if expected == actual {
      forall t | t in ts && Readable(t) ensures AsRow(t) in rows {
        assert t.uuid.value in actual;
        var r :| r in rows && r.uuid == t.uuid.value;
      }
      forall r | r in rows ensures exists t :: t in ts && Readable(t) && AsRow(t) == r {
        assert r.uuid in expected;
        var t :| t in ts && Names(t, r.uuid);
      }
    }
    if OneToOne(ts, rows) {
      forall k | k in expected ensures k in actual && actual[k] == expected[k] {
        var t :| t in ts && Names(t, k);
        assert AsRow(t) in rows;
      }
      forall k | k in actual ensures k in expected {
        var r :| r in rows && r.uuid == k;
        var t :| t in ts && Readable(t) && AsRow(t) == r;
        assert Names(t, k);
      }
    }
  }

  // ----- the tracker ------------------------------------------------------------------------

  datatype State = PENDING | CONFLICT | ACKNOWLEDGED | UNKNOWN

  datatype Reason = AwaitingAck | LocalInvalid | LocalChanged | LocalMissing | Mismatch | FromCloud(code: Text)

  /** One durable row of the tracker. */
  datatype Entry = Entry(
    shift: int, state: State, reason: Reason, version: Option<int>, digest: Option<Text>,
    firstSeenAt: int, updatedAt: int, lastProbeAt: Option<int>, acknowledgedAt: Option<int>, probes: nat)

  function EntryFor(b: Bundle, prev: Option<Entry>, state: State, reason: Reason, probed: bool, now: int): Entry {
    Entry(
      b.id, state, reason, b.version, b.digest,
      if prev.Some? then prev.value.firstSeenAt else now,
      now,
      if probed then Some(now) else if prev.Some? then prev.value.lastProbeAt else None,
      if state == ACKNOWLEDGED then Some(if prev.Some? && prev.value.acknowledgedAt.Some? then prev.value.acknowledgedAt.value else now)
      else if prev.Some? && prev.value.state != ACKNOWLEDGED then prev.value.acknowledgedAt else None,
      (if prev.Some? then prev.value.probes else 0) + if probed then 1 else 0)
  }

  /** What discovery does with one closed shift; None when its acknowledgement stands. */
  function Discovered(b: Bundle, prev: Option<Entry>, now: int): Option<Entry> {
    if b.error.Some? then Some(EntryFor(b, prev, CONFLICT, LocalInvalid, false, now))
    else if prev.Some? && prev.value.digest.Some? && prev.value.digest != b.digest then
      Some(EntryFor(b, prev, CONFLICT, LocalChanged, false, now))
    else if prev.Some? && prev.value.state == ACKNOWLEDGED && prev.value.digest == b.digest then None
    else if prev.Some? && prev.value.state == CONFLICT then
      Some(EntryFor(b, prev, CONFLICT, prev.value.reason, false, now))
    else Some(EntryFor(b, prev, PENDING, AwaitingAck, false, now))
  }

  type Entries = map<Text, Entry>

  function Lookup(es: Entries, uuid: Text): Option<Entry> {
    if uuid in es then Some(es[uuid]) else None
  }

  function DiscoverOne(es: Entries, b: Bundle, now: int): Entries {
    match Discovered(b, Lookup(es, b.uuid), now)
    case None => es
    case Some(e) => es[b.uuid := e]
  }

  function DiscoverAll(es: Entries, bs: seq<Bundle>, now: int): Entries {
    if bs == [] then es else DiscoverOne(DiscoverAll(es, bs[..|bs| - 1], now), bs[|bs| - 1], now)
  }

  /** A tracked close whose shift is gone keeps its warning. */
  function Vanished(es: Entries, seen: set<Text>, now: int): Entries {
    map k | k in es ::
      if es[k].state == ACKNOWLEDGED || k in seen then es[k]
      else es[k].(state := CONFLICT, reason := LocalMissing, updatedAt := now)
  }

  function Uuids(bs: seq<Bundle>): set<Text> {
    set b | b in bs :: b.uuid
  }

  function EnsureDiscovered(es: Entries, bs: seq<Bundle>, now: int): Entries {
    Vanished(DiscoverAll(es, bs, now), Uuids(bs), now)
  }

  // ----- the cloud's verdict ----------------------------------------------------------------

  datatype Verdict = UNAVAILABLE | CloudPending | CloudConflict | CloudAcknowledged | CloudOther

  datatype Remote = Remote(
    verdict: Verdict, code: Text, success: bool, uuid: Text, version: Option<int>, digest: Text,
    sameAlgorithm: bool, acknowledged: bool)

  /** The answer repeats the exact identity that was asked about. */
  predicate Echoes(r: Remote, b: Bundle) {
    && r.success && r.uuid == b.uuid && r.version == b.version && r.version.Some?
    && Some(r.digest) == b.digest && r.sameAlgorithm
  }

  /** The state an answer puts a close in: anything that is neither an outage nor an answer about exactly
      this bundle is a conflict. */
  function Validated(b: Bundle, r: Remote): (State, Reason) {
    if r.verdict == UNAVAILABLE then (PENDING, FromCloud(r.code))
    else if !Echoes(r, b) || r.verdict == CloudOther then (CONFLICT, Mismatch)
    else if r.acknowledged != (r.verdict == CloudAcknowledged) then (CONFLICT, Mismatch)
    else
      match r.verdict
      case CloudAcknowledged => (ACKNOWLEDGED, FromCloud(r.code))
      case CloudConflict => (CONFLICT, FromCloud(r.code))
      case _ => (PENDING, FromCloud(r.code))
  }

  /** Acknowledged exactly when the cloud said so twice and echoed shift, version, digest and scheme. */
  lemma AcknowledgedIff(b: Bundle, r: Remote)
    ensures Validated(b, r).0 == ACKNOWLEDGED <==> r.verdict == CloudAcknowledged && r.acknowledged && Echoes(r, b)
  {
  }

  // ----- one refresh ------------------------------------------------------------------------

  /** A refresh in progress: the tracker, probes made, and the first outage of this cycle. */
  datatype Cycle = Cycle(entries: Entries, probes: nat, outage: Option<Remote>)

  const MAX_PROBES := 25

  /** One close's turn; `answer` is what the cloud would say if it were asked now. */
  function Probe(c: Cycle, b: Bundle, answer: Remote, now: int): Cycle {
    var e := Lookup(c.entries, b.uuid);
    if (e.Some? && e.value.state == ACKNOWLEDGED) || b.error.Some? || c.probes >= MAX_PROBES then c
    else
      var remote := if c.outage.Some? then c.outage.value else answer;
      var (state, reason) := Validated(b, remote);
      Cycle(c.entries[b.uuid := EntryFor(b, e, state, reason, true, now)],
            if c.outage.Some? then c.probes else c.probes + 1,
            if c.outage.None? && answer.verdict == UNAVAILABLE then Some(answer) else c.outage)
  }

  function ProbeAll(c: Cycle, bs: seq<Bundle>, cloud: Text -> Remote, now: int): Cycle {
    if bs == [] then c
    else
      var b := bs[|bs| - 1];
      Probe(ProbeAll(c, bs[..|bs| - 1], cloud, now), b, cloud(b.uuid), now)
  }

  /** Discover, then ask the cloud about what is unresolved. Bundles are visited in any order. */
  function Refresh(es: Entries, bs: seq<Bundle>, probeCloud: bool, cloud: Text -> Remote, now: int): Entries {
    var found := EnsureDiscovered(es, bs, now);
    if probeCloud then ProbeAll(Cycle(found, 0, None), bs, cloud, now).entries else found
  }

  predicate Clear(es: Entries) {
    forall k | k in es :: es[k].state != PENDING && es[k].state != CONFLICT
  }
}
