/** What a refresh makes of every tracked close, discovered or not; what a clear status says about all of
    them; and that a refresh in one piece is the stepwise one without signals. */
module ShiftCloseMeaning {
  import opened Common
  import opened Text
  import opened ShiftClose
  import opened ShiftCloseRuns
  import T = ShiftCloseThreads

  // ----- what is wrong with a bundle --------------------------------------------------------

  /** A live row that is this tender, amount by amount. */
  predicate Matches(t: RawTender, r: Row) {
    && t.RawTender? && t.uuid == Some(r.uuid) && t.kind == r.kind && t.kind != []
    && t.expected.Some? && t.counted.Some? && t.difference.Some?
    && r.expected == t.expected && r.counted == t.counted && r.difference == t.difference
  }

  /** A bundle is whole exactly if its manifest has a version and tenders, no tender is repeated, each is a
      live row of the shift with the same three amounts, and each live row is a tender. */
  lemma WholeIff(s: Shift, digest: Manifest -> Text)
    requires DistinctRows(s.rows)
    ensures LocalBundle(s, digest).error.None? <==>
      && s.manifest.Manifest? && s.manifest.version.Some? && s.manifest.tenders.Some?
      && var ts := s.manifest.tenders.value;
         && (forall i, j | 0 <= i < j < |ts| && ts[i].RawTender? && ts[j].RawTender? :: ts[i].uuid != ts[j].uuid)
         && (forall t | t in ts :: exists r :: r in s.rows && Matches(t, r))
         && (forall r | r in s.rows :: exists t :: t in ts && Matches(t, r))
  {
    BundleIsExact(s, digest);
    if s.manifest.Manifest? && s.manifest.version.Some? && s.manifest.tenders.Some? {
      var ts := s.manifest.tenders.value;
      hide LocalBundle;
      forall t, r ensures Matches(t, r) <==> Readable(t) && AsRow(t) == r { }
      if OneToOne(ts, s.rows) {
        forall t | t in ts ensures exists r :: r in s.rows && Matches(t, r) {
          assert Readable(t) && AsRow(t) in s.rows;
          assert Matches(t, AsRow(t));
        }
      }
    }
  }

  /** A bundle names the first thing that is wrong with its close: no manifest, no version in it, no list of
      tenders, an unreadable or repeated tender, or tenders other than the live rows. */
  lemma FaultIs(s: Shift, digest: Manifest -> Text)
    requires DistinctRows(s.rows)
    ensures var b, m := LocalBundle(s, digest), s.manifest;
      && b.uuid == s.uuid && b.id == s.id
      && (b.error == Some(MissingManifest) <==> m.NoManifest?)
      && (b.error == Some(BadVersion) <==> m.Manifest? && m.version.None?)
      && (b.digest.Some? <==> m.Manifest? && m.version.Some?)
      && (b.error == Some(NoTenders) <==> m.Manifest? && m.version.Some? && m.tenders.None?)
      && (b.error == Some(RowsDiffer) <==>
            m.Manifest? && m.version.Some? && m.tenders.Some? && DistinctTenders(m.tenders.value) && !OneToOne(m.tenders.value, s.rows))
  {
    BundleIsExact(s, digest);
    if s.manifest.Manifest? && s.manifest.tenders.Some? {
      ExpectedIff(s.manifest.tenders.value);
      ExpectedFaults(s.manifest.tenders.value);
    }
    hide Expected, Actual, DistinctTenders, OneToOne, DistinctRows;
  }

  lemma {:induction false} ExpectedFaults(ts: seq<RawTender>)
    ensures Expected(ts).Err? ==>
      Expected(ts).error != MissingManifest && Expected(ts).error != BadVersion && Expected(ts).error != NoTenders && Expected(ts).error != RowsDiffer
  {
    if ts != [] { ExpectedFaults(ts[..|ts| - 1]); }
  }

  // ----- closes whose shift is gone ---------------------------------------------------------

  /** A tracked close that no bundle stands for keeps its acknowledgement, or becomes a conflict because it
      is missing, whatever the cloud says about the others. */
  lemma MissingBecomes(es: Entries, bs: seq<Bundle>, probe: bool, cloud: Text -> Remote, now: int, k: Text)
    requires k in es && forall b | b in bs :: b.uuid != k
    ensures var after := Refresh(es, bs, probe, cloud, now);
      k in after
      && after[k] == if es[k].state == ACKNOWLEDGED then es[k] else es[k].(state := CONFLICT, reason := LocalMissing, updatedAt := now)
  {
    OthersUndiscovered(es, bs, now, k);
    OthersUnprobed(Cycle(EnsureDiscovered(es, bs, now), 0, None), bs, cloud, now, k);
    hide DiscoverAll, ProbeAll;
  }

  lemma AllMissingBecome(es: Entries, bs: seq<Bundle>, probe: bool, cloud: Text -> Remote, now: int)
    ensures var after := Refresh(es, bs, probe, cloud, now);
      forall k | k in es && es[k].state != ACKNOWLEDGED && (forall b | b in bs :: b.uuid != k) ::
        k in after && after[k].state == CONFLICT && after[k].reason == LocalMissing && !Clear(after)
  {
    forall k | k in es && es[k].state != ACKNOWLEDGED && (forall b | b in bs :: b.uuid != k)
      ensures var after := Refresh(es, bs, probe, cloud, now);
        k in after && after[k].state == CONFLICT && after[k].reason == LocalMissing && !Clear(after)
    {
      MissingBecomes(es, bs, probe, cloud, now, k);
    }
    hide Refresh;
  }

  lemma {:induction false} DiscoveryKeys(es: Entries, bs: seq<Bundle>, now: int, k: Text)
    requires DistinctBundles(bs)
    ensures k in DiscoverAll(es, bs, now) <==> k in es || exists b :: b in bs && b.uuid == k
  {
    if bs != [] {
      var n := |bs| - 1;
      DiscoveryKeys(es, bs[..n], now, k);
      assert bs == bs[..n] + [bs[n]];
      DiscoveredIs(bs[n], Lookup(DiscoverAll(es, bs[..n], now), bs[n].uuid), now);
      hide Discovered;
    }
  }

  lemma {:induction false} ProbingKeys(c: Cycle, bs: seq<Bundle>, cloud: Text -> Remote, now: int, k: Text)
    requires forall b | b in bs :: b.uuid in c.entries
    ensures k in ProbeAll(c, bs, cloud, now).entries <==> k in c.entries
  {
    if bs != [] {
      var n := |bs| - 1;
      assert bs[n] in bs;
      forall b | b in bs[..n] ensures b in bs { }
      ProbingKeys(c, bs[..n], cloud, now, k);
      hide Validated, EntryFor;
    }
  }

  /** No close is ever lost, and none is invented: tracked are the old ones and the bundles. */
  lemma NothingIsLost(es: Entries, bs: seq<Bundle>, probe: bool, cloud: Text -> Remote, now: int, k: Text)
    requires DistinctBundles(bs)
    ensures k in Refresh(es, bs, probe, cloud, now) <==> k in es || exists b :: b in bs && b.uuid == k
  {
    var found := EnsureDiscovered(es, bs, now);
    DiscoveryKeys(es, bs, now, k);
    forall b | b in bs ensures b.uuid in found { DiscoveryKeys(es, bs, now, b.uuid); }
    ProbingKeys(Cycle(found, 0, None), bs, cloud, now, k);
    hide DiscoverAll, ProbeAll;
  }

  // ----- what discovery makes of a bundle ---------------------------------------------------

  /** A discovered close is a conflict if its bundle is broken or differs from what was tracked; it stays
      acknowledged or in conflict if it was; anything else is pending. */
  lemma DiscoveredBecomes(es: Entries, bs: seq<Bundle>, now: int, i: nat)
    requires DistinctBundles(bs) && i < |bs|
    ensures var b, before, after := bs[i], Lookup(es, bs[i].uuid), EnsureDiscovered(es, bs, now);
      var changed := before.Some? && before.value.digest.Some? && before.value.digest != b.digest;
      && b.uuid in after
      && (var e := after[b.uuid];
          && e.digest == b.digest
          && (e.state == ACKNOWLEDGED <==> b.error.None? && !changed && before.Some? && before.value.state == ACKNOWLEDGED && before.value.digest == b.digest)
          && (e.state == ACKNOWLEDGED ==> e == before.value)
          && (e.state == CONFLICT <==> b.error.Some? || changed || (before.Some? && before.value.state == CONFLICT))
          && (e.state == CONFLICT ==> e.reason == if b.error.Some? then LocalInvalid else if changed then LocalChanged else before.value.reason)
          && (e.state == PENDING ==> e.reason == AwaitingAck)
          && e.state != UNKNOWN)
  {
    var b := bs[i];
    OthersBefore(bs, i);
    OthersUndiscovered(es, bs[..i], now, b.uuid);
    DiscoveredAtItsTurn(es, bs, now, i);
    assert b in bs && b.uuid in Uuids(bs);
    hide DiscoverAll;
  }

  // ----- what one turn makes of a bundle ----------------------------------------------------

  /** The row keeps when the close was first seen and counts how often it was asked about; an
      acknowledgement is dated when it first came, and one that is lost loses its date. */
  lemma RowIs(b: Bundle, prev: Option<Entry>, state: State, reason: Reason, probed: bool, now: int)
    ensures var e := EntryFor(b, prev, state, reason, probed, now);
      && e.shift == b.id && e.version == b.version && e.digest == b.digest && e.state == state && e.reason == reason
      && e.updatedAt == now
      && (prev.None? ==> e.firstSeenAt == now && e.probes == (if probed then 1 else 0))
      && (prev.Some? ==> e.firstSeenAt == prev.value.firstSeenAt && e.probes == prev.value.probes + if probed then 1 else 0)
      && (probed ==> e.lastProbeAt == Some(now))
      && (!probed ==> e.lastProbeAt == if prev.Some? then prev.value.lastProbeAt else None)
      && (state == ACKNOWLEDGED ==>
            e.acknowledgedAt == if prev.Some? && prev.value.acknowledgedAt.Some? then prev.value.acknowledgedAt else Some(now))
      && (state != ACKNOWLEDGED ==>
            e.acknowledgedAt == if prev.Some? && prev.value.state != ACKNOWLEDGED then prev.value.acknowledgedAt else None)
  {
  }

  /** A close that is acknowledged or broken, or comes after twenty-five questions, is left alone. Any other
      is answered by the cloud, once, until the first outage, which then answers for all the rest. */
  lemma TurnComes(c: Cycle, b: Bundle, answer: Remote, now: int)
    ensures var after, known := Probe(c, b, answer, now), Lookup(c.entries, b.uuid);
      if (known.Some? && known.value.state == ACKNOWLEDGED) || b.error.Some? || c.probes >= 25 then after == c
      else
        var said := if c.outage.Some? then c.outage.value else answer;
        && after.probes == c.probes + (if c.outage.Some? then 0 else 1)
        && after.outage == (if c.outage.None? && answer.verdict == UNAVAILABLE then Some(answer) else c.outage)
        && b.uuid in after.entries && after.entries == c.entries[b.uuid := after.entries[b.uuid]]
        && var e := after.entries[b.uuid];
           && e == EntryFor(b, known, e.state, e.reason, true, now)
           && (e.state == ACKNOWLEDGED <==> said.verdict == CloudAcknowledged && said.acknowledged && Echoes(said, b))
           && (e.state == PENDING <==>
                 said.verdict == UNAVAILABLE || (said.verdict == CloudPending && !said.acknowledged && Echoes(said, b)))
           && e.state != UNKNOWN
           && (e.reason == FromCloud(said.code) || (e.state == CONFLICT && e.reason == Mismatch
                 && !(said.verdict == CloudConflict && !said.acknowledged && Echoes(said, b))))
  {
  }

  // ----- no entry is in an unknown state ----------------------------------------------------

  ghost predicate AllKnown(es: Entries) {
    forall k | k in es :: es[k].state != UNKNOWN
  }

  lemma {:induction false} DiscoveryKnows(es: Entries, bs: seq<Bundle>, now: int)
    requires AllKnown(es)
    ensures AllKnown(DiscoverAll(es, bs, now))
  {
    if bs != [] {
      var n := |bs| - 1;
      DiscoveryKnows(es, bs[..n], now);
      DiscoveredIs(bs[n], Lookup(DiscoverAll(es, bs[..n], now), bs[n].uuid), now);
      hide Discovered;
    }
  }

  lemma ProbeKnows(c: Cycle, b: Bundle, answer: Remote, now: int)
    requires AllKnown(c.entries)
    ensures AllKnown(Probe(c, b, answer, now).entries)
  {
  }

  lemma {:induction false} ProbingKnows(c: Cycle, bs: seq<Bundle>, cloud: Text -> Remote, now: int)
    requires AllKnown(c.entries)
    ensures AllKnown(ProbeAll(c, bs, cloud, now).entries)
  {
    hide AllKnown, Probe;
    if bs != [] {
      var n := |bs| - 1;
      ProbingKnows(c, bs[..n], cloud, now);
      ProbeKnows(ProbeAll(c, bs[..n], cloud, now), bs[n], cloud(bs[n].uuid), now);
    }
  }

  lemma AfterKnows(es: Entries, ev: Event)
    requires AllKnown(es)
    ensures AllKnown(After(es, ev))
  {
    match ev
    case Track(b, now) =>
      DiscoveredIs(b, Lookup(es, b.uuid), now);
      hide Discovered;
    case DoRefresh(bs, probe, cloud, now) =>
      DiscoveryKnows(es, bs, now);
      assert AllKnown(EnsureDiscovered(es, bs, now)) by { hide DiscoverAll; }
      ProbingKnows(Cycle(EnsureDiscovered(es, bs, now), 0, None), bs, cloud, now);
      hide AllKnown, EnsureDiscovered, ProbeAll;
  }

  lemma {:induction false} RunKnows(run: seq<Entries>, evs: seq<Event>, i: nat)
    requires IsRun(run, evs) && i < |run|
    ensures AllKnown(run[i])
  {
    if i > 0 {
      RunKnows(run, evs, i - 1);
      AfterKnows(run[i - 1], evs[i - 1]);
      assert SameMarks(After(run[i - 1], evs[i - 1]), run[i]);
      hide After;
    }
  }

  // ----- a clear status, over a run -----------------------------------------------------------

  lemma AfterKeeps(es: Entries, ev: Event, k: Text)
    requires k in es && (ev.DoRefresh? ==> DistinctBundles(ev.bundles))
    ensures k in After(es, ev)
  {
    if ev.DoRefresh? { NothingIsLost(es, ev.bundles, ev.probe, ev.cloud, ev.now, k); }
    hide Refresh, Discovered;
  }

  /** At any point of any run a clear status means that every close ever tracked is acknowledged, found by
      the last refresh or not. */
  lemma {:induction false} ClearMeansAll(run: seq<Entries>, evs: seq<Event>, j: nat, i: nat, k: Text)
    requires IsRun(run, evs) && j <= i < |run| && k in run[j]
    requires forall ev | ev in evs && ev.DoRefresh? :: DistinctBundles(ev.bundles)
    ensures k in run[i] && (Clear(run[i]) ==> run[i][k].state == ACKNOWLEDGED)
    decreases i
  {
    if j < i {
      ClearMeansAll(run, evs, j, i - 1, k);
      assert evs[i - 1] in evs;
      AfterKeeps(run[i - 1], evs[i - 1], k);
      assert SameMarks(After(run[i - 1], evs[i - 1]), run[i]);
    }
    RunKnows(run, evs, i);
    hide IsRun, After;
  }

  // ----- the same where signals interleave ----------------------------------------------------

  ghost predicate WorldKnown(w: T.World) {
    AllKnown(w.durable) && (!w.phase.Idle? ==> AllKnown(w.phase.Copy()))
  }

  lemma StepKnows(w: T.World, a: T.Action)
    requires WorldKnown(w) && T.Enabled(w, a)
    ensures WorldKnown(T.Next(w, a)) && w.durable.Keys <= T.Next(w, a).durable.Keys
  {
    hide EntryFor, Validated, DistinctBundles, Uuids;
    match a
    case Store(i, now) => DiscoveredIs(w.pending[i].bundle, w.pending[i].previous, now);
    case Discover(now) =>
      var b := w.phase.bundles[w.phase.next];
      DiscoveredIs(b, Lookup(w.phase.local, b.uuid), now);
    case Ask(answer, now) =>
      ProbeKnows(w.phase.cycle, w.phase.bundles[w.phase.next], answer, now);
    case _ =>
  }

  lemma {:induction false} ClearMeansAllAnywhere(run: seq<T.World>, acts: seq<T.Action>, j: nat, i: nat, k: Text)
    requires T.IsRun(run, acts) && j <= i < |run| && k in run[j].durable
    ensures k in run[i].durable && (Clear(run[i].durable) ==> run[i].durable[k].state == ACKNOWLEDGED)
    ensures WorldKnown(run[i])
    decreases i
  {
    WorldsKnown(run, acts, i);
    if j < i {
      ClearMeansAllAnywhere(run, acts, j, i - 1, k);
      assert T.Enabled(run[i - 1], acts[i - 1]) && run[i] == T.Next(run[i - 1], acts[i - 1]);
      StepKnows(run[i - 1], acts[i - 1]);
    }
    hide T.IsRun, T.Next, T.Enabled;
  }

  lemma {:induction false} WorldsKnown(run: seq<T.World>, acts: seq<T.Action>, i: nat)
    requires T.IsRun(run, acts) && i < |run|
    ensures WorldKnown(run[i])
  {
    hide T.Next, T.Enabled;
    if i > 0 {
      WorldsKnown(run, acts, i - 1);
      assert T.Enabled(run[i - 1], acts[i - 1]) && run[i] == T.Next(run[i - 1], acts[i - 1]);
      StepKnows(run[i - 1], acts[i - 1]);
    }
  }

  // ----- a refresh in one piece ---------------------------------------------------------------

  /** A step of a refresh that runs alone, at one clock, against one cloud. */
  predicate IsAlone(w: T.World, a: T.Action, cloud: Text -> Remote, now: int)
    requires T.Enabled(w, a)
  {
    match a
    case Discover(at) => at == now
    case LookForVanished => true
    case Vanish(_, at) => at == now
    case StartProbing => true
    case Ask(answer, at) => at == now && answer == cloud(w.phase.bundles[w.phase.next].uuid)
    case _ => false
  }

  /** Where such a refresh, begun over `es`, stands in the refresh in one piece. */
  ghost predicate OnTheWay(w: T.World, es: Entries, bs: seq<Bundle>, cloud: Text -> Remote, now: int) {
    match w.phase
    case Idle => false
    case Discovering(bundles, next, local) =>
      bundles == bs && next <= |bs| && w.durable == local == DiscoverAll(es, bs[..next], now)
    case Vanishing(bundles, left, local) =>
      && bundles == bs && w.durable == local
      && var found, gone := DiscoverAll(es, bs, now), EnsureDiscovered(es, bs, now);
         left <= found.Keys && local == map k | k in found :: if k in left then found[k] else gone[k]
    case Probing(bundles, next, cycle) =>
      && bundles == bs && next <= |bs| && w.durable == cycle.entries
      && cycle == ProbeAll(Cycle(EnsureDiscovered(es, bs, now), 0, None), bs[..next], cloud, now)
  }

  lemma DiscoverAlone(w: T.World, es: Entries, bs: seq<Bundle>, cloud: Text -> Remote, now: int)
    requires OnTheWay(w, es, bs, cloud, now) && T.Enabled(w, T.Discover(now))
    ensures OnTheWay(T.Next(w, T.Discover(now)), es, bs, cloud, now)
  {
    var n := w.phase.next;
    assert bs[..n + 1][..n] == bs[..n];
    hide Discovered;
  }

  lemma VanishAlone(w: T.World, es: Entries, bs: seq<Bundle>, cloud: Text -> Remote, now: int, k: Text)
    requires OnTheWay(w, es, bs, cloud, now) && T.Enabled(w, T.Vanish(k, now))
    ensures OnTheWay(T.Next(w, T.Vanish(k, now)), es, bs, cloud, now)
  {
    hide DiscoverAll, Uuids;
  }

  lemma AskAlone(w: T.World, es: Entries, bs: seq<Bundle>, cloud: Text -> Remote, now: int, answer: Remote)
    requires OnTheWay(w, es, bs, cloud, now) && T.Enabled(w, T.Ask(answer, now))
    requires answer == cloud(w.phase.bundles[w.phase.next].uuid)
    ensures OnTheWay(T.Next(w, T.Ask(answer, now)), es, bs, cloud, now)
  {
    var n := w.phase.next;
    assert bs[..n + 1][..n] == bs[..n] && bs[..n + 1][n] == bs[n];
    hide EnsureDiscovered, Validated, EntryFor;
  }

  lemma StepAlone(w: T.World, a: T.Action, es: Entries, bs: seq<Bundle>, cloud: Text -> Remote, now: int)
    requires OnTheWay(w, es, bs, cloud, now) && T.Enabled(w, a) && IsAlone(w, a, cloud, now)
    ensures OnTheWay(T.Next(w, a), es, bs, cloud, now)
  {
    match a
    case Discover(_) => DiscoverAlone(w, es, bs, cloud, now);
    case LookForVanished => assert bs[..|bs|] == bs;
    case Vanish(k, _) => VanishAlone(w, es, bs, cloud, now, k);
    case StartProbing => assert bs[..0] == [];
    case Ask(answer, _) => AskAlone(w, es, bs, cloud, now, answer);
  }

  ghost predicate RunsAlone(run: seq<T.World>, acts: seq<T.Action>, cloud: Text -> Remote, now: int) {
    && |run| == |acts| + 1
    && forall i | 0 <= i < |acts| ::
         T.Enabled(run[i], acts[i]) && IsAlone(run[i], acts[i], cloud, now) && run[i + 1] == T.Next(run[i], acts[i])
  }

  lemma {:induction false} RunAlone(run: seq<T.World>, acts: seq<T.Action>, es: Entries, bs: seq<Bundle>, cloud: Text -> Remote, now: int, i: nat)
    requires RunsAlone(run, acts, cloud, now) && OnTheWay(run[0], es, bs, cloud, now) && i < |run|
    ensures OnTheWay(run[i], es, bs, cloud, now)
  {
    hide OnTheWay, IsAlone, T.Enabled, T.Next;
    if i > 0 {
      RunAlone(run, acts, es, bs, cloud, now, i - 1);
      StepAlone(run[i - 1], acts[i - 1], es, bs, cloud, now);
    }
  }

  /** The stepwise refresh without signals leaves what the refresh in one piece does: once everything is
      discovered and accounted for, what a refresh that asks nothing leaves, and once everything was asked
      about, what one that asks leaves. */
  lemma StepwiseIsRefresh(
    w: T.World, bs: seq<Bundle>, run: seq<T.World>, acts: seq<T.Action>, cloud: Text -> Remote, now: int, i: nat)
    requires T.Enabled(w, T.Begin(bs)) && RunsAlone(run, acts, cloud, now) && run[0] == T.Next(w, T.Begin(bs)) && i < |run|
    ensures var p := run[i].phase;
      && (p.Vanishing? && p.left == {} ==> run[i].durable == Refresh(w.durable, bs, false, cloud, now))
      && (p.Probing? && p.next == |bs| ==> run[i].durable == Refresh(w.durable, bs, true, cloud, now))
  {
    assert bs[..0] == [] && bs[..|bs|] == bs;
    assert OnTheWay(run[0], w.durable, bs, cloud, now);
    RunAlone(run, acts, w.durable, bs, cloud, now, i);
    hide DiscoverAll, ProbeAll, Uuids, RunsAlone;
  }
}
