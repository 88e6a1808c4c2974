/** What the acknowledgement tracker guarantees after every refresh and over every run. */
module ShiftCloseRuns {
  import opened Common
  import opened Text
  import opened ShiftClose

  ghost predicate DistinctBundles(bs: seq<Bundle>) {
    forall i, j | 0 <= i < j < |bs| :: bs[i].uuid != bs[j].uuid
  }

  // ----- a clear status is true -------------------------------------------------------------

  /** Unresolved, or acknowledged with the bundle's current digest and a whole bundle. */
  predicate Accounted(es: Entries, b: Bundle) {
    && b.uuid in es
    && (|| es[b.uuid].state == PENDING || es[b.uuid].state == CONFLICT
        || (es[b.uuid].state == ACKNOWLEDGED && es[b.uuid].digest == b.digest && b.error.None?))
  }

  lemma {:induction false} DiscoveryAccounts(es: Entries, bs: seq<Bundle>, now: int, b: Bundle)
    requires DistinctBundles(bs) && b in bs
    ensures Accounted(DiscoverAll(es, bs, now), b)
  {
    var n := |bs| - 1;
    assert bs == bs[..n] + [bs[n]];
    if b != bs[n] {
      DiscoveryAccounts(es, bs[..n], now, b);
      var i :| 0 <= i < n && bs[i] == b;
    }
    hide EntryFor;
    EntryForIs(bs[n], Lookup(DiscoverAll(es, bs[..n], now), bs[n].uuid), CONFLICT, LocalInvalid, false, now);
    EntryForIs(bs[n], Lookup(DiscoverAll(es, bs[..n], now), bs[n].uuid), PENDING, AwaitingAck, false, now);
    hide DiscoverAll, Lookup;
    DiscoveredIs(bs[n], Lookup(DiscoverAll(es, bs[..n], now), bs[n].uuid), now);
    StepInto(es, bs, now);
  }

  lemma StepInto(es: Entries, bs: seq<Bundle>, now: int)
    requires bs != []
    ensures DiscoverAll(es, bs, now) == DiscoverOne(DiscoverAll(es, bs[..|bs| - 1], now), bs[|bs| - 1], now)
  {
  }

  lemma EntryForIs(b: Bundle, prev: Option<Entry>, state: State, reason: Reason, probed: bool, now: int)
    ensures EntryFor(b, prev, state, reason, probed, now).state == state
    ensures EntryFor(b, prev, state, reason, probed, now).digest == b.digest
  {
  }

  lemma DiscoveredIs(b: Bundle, prev: Option<Entry>, now: int)
    ensures var d := Discovered(b, prev, now);
      && (d.Some? ==> (d.value.state == PENDING || d.value.state == CONFLICT) && d.value.digest == b.digest)
      && (d.None? ==> b.error.None? && prev.Some? && prev.value.state == ACKNOWLEDGED && prev.value.digest == b.digest)
  {
  }

  lemma ProbeAccounts(c: Cycle, b': Bundle, answer: Remote, now: int, b: Bundle)
    requires Accounted(c.entries, b) && (b == b' || b.uuid != b'.uuid)
    ensures Accounted(Probe(c, b', answer, now).entries, b)
  {
  }

  lemma {:induction false} ProbesAccount(c: Cycle, bs: seq<Bundle>, cloud: Text -> Remote, now: int, b: Bundle)
    requires Accounted(c.entries, b)
    requires forall x | x in bs :: x == b || x.uuid != b.uuid
    ensures Accounted(ProbeAll(c, bs, cloud, now).entries, b)
  {
    hide Accounted, Probe;
    if bs != [] {
      var n := |bs| - 1;
      assert bs == bs[..n] + [bs[n]];
      ProbesAccount(c, bs[..n], cloud, now, b);
      ProbeAccounts(ProbeAll(c, bs[..n], cloud, now), bs[n], cloud(bs[n].uuid), now, b);
    }
  }

  lemma OneBundleEach(bs: seq<Bundle>, b: Bundle)
    requires DistinctBundles(bs) && b in bs
    ensures forall x | x in bs :: x == b || x.uuid != b.uuid
  {
    var i :| 0 <= i < |bs| && bs[i] == b;
    forall x | x in bs ensures x == b || x.uuid != b.uuid {
      var j :| 0 <= j < |bs| && bs[j] == x;
    }
  }

  /** After any refresh, a clear status means that every closed shift discovered has a whole bundle and
      is acknowledged with the digest its manifest has now. */
  lemma ClearIsSound(es: Entries, bs: seq<Bundle>, probe: bool, cloud: Text -> Remote, now: int, b: Bundle)
    requires DistinctBundles(bs) && b in bs && Clear(Refresh(es, bs, probe, cloud, now))
    ensures var after := Refresh(es, bs, probe, cloud, now);
      && b.error.None?
      && b.uuid in after && after[b.uuid].state == ACKNOWLEDGED && after[b.uuid].digest == b.digest
  {
    DiscoveryAccounts(es, bs, now, b);
    assert b.uuid in Uuids(bs);
    var found := EnsureDiscovered(es, bs, now);
    assert Accounted(found, b);
    OneBundleEach(bs, b);
    ProbesAccount(Cycle(found, 0, None), bs, cloud, now, b);
    hide DiscoverAll, ProbeAll;
    assert Accounted(Refresh(es, bs, probe, cloud, now), b);
  }

  // ----- an acknowledgement is the cloud's --------------------------------------------------

  predicate Acked(es: Entries, k: Text, digest: Option<Text>) {
    k in es && es[k].state == ACKNOWLEDGED && es[k].digest == digest
  }

  /** The cloud, asked about a bundle of this shift with this digest, acknowledged it and echoed it. */
  predicate Vouched(bs: seq<Bundle>, cloud: Text -> Remote, k: Text, digest: Option<Text>) {
    exists b :: b in bs && b.uuid == k && b.digest == digest && digest.Some?
      && cloud(k).verdict == CloudAcknowledged && cloud(k).acknowledged && Echoes(cloud(k), b)
  }

  lemma {:induction false} DiscoveryAcksNothing(es: Entries, bs: seq<Bundle>, now: int, k: Text, digest: Option<Text>)
    requires Acked(DiscoverAll(es, bs, now), k, digest)
    ensures Acked(es, k, digest)
  {
    if bs != [] {
      var n := |bs| - 1;
      var before := DiscoverAll(es, bs[..n], now);
      DiscoveredIs(bs[n], Lookup(before, bs[n].uuid), now);
      hide Discovered;
      DiscoveryAcksNothing(es, bs[..n], now, k, digest);
    }
  }

  lemma ProbeAcks(c: Cycle, b: Bundle, answer: Remote, now: int, k: Text, digest: Option<Text>)
    requires Acked(Probe(c, b, answer, now).entries, k, digest)
    ensures Acked(c.entries, k, digest)
      || (&& k == b.uuid && digest == b.digest && c.outage.None?
          && answer.verdict == CloudAcknowledged && answer.acknowledged && Echoes(answer, b))
      || (c.outage.Some? && c.outage.value.verdict != UNAVAILABLE)
  {
  }

  lemma {:induction false} ProbesAck(c: Cycle, bs: seq<Bundle>, cloud: Text -> Remote, now: int, k: Text, digest: Option<Text>)
    requires c.outage.None? && Acked(ProbeAll(c, bs, cloud, now).entries, k, digest)
    ensures Acked(c.entries, k, digest) || Vouched(bs, cloud, k, digest)
    decreases bs
  {
    hide Probe, Acked;
    if bs != [] {
      var n := |bs| - 1;
      assert bs == bs[..n] + [bs[n]];
      var before := ProbeAll(c, bs[..n], cloud, now);
      OutagesAreOutages(c, bs[..n], cloud, now);
      ProbeAcks(before, bs[n], cloud(bs[n].uuid), now, k, digest);
      if Acked(before.entries, k, digest) {
        ProbesAck(c, bs[..n], cloud, now, k, digest);
        if Vouched(bs[..n], cloud, k, digest) {
          var b :| b in bs[..n] && b.uuid == k && b.digest == digest && Echoes(cloud(k), b);
          assert b in bs;
        }
      } else {
        assert bs[n] in bs;
      }
    }
  }

  lemma {:induction false} OutagesAreOutages(c: Cycle, bs: seq<Bundle>, cloud: Text -> Remote, now: int)
    requires c.outage.None?
    ensures var after := ProbeAll(c, bs, cloud, now); after.outage.Some? ==> after.outage.value.verdict == UNAVAILABLE
  {
    if bs != [] { OutagesAreOutages(c, bs[..|bs| - 1], cloud, now); }
  }

  /** A refresh acknowledges a digest only if it was acknowledged already or the cloud echoed it. */
  lemma RefreshAcksEchoed(es: Entries, bs: seq<Bundle>, probe: bool, cloud: Text -> Remote, now: int, k: Text, digest: Option<Text>)
    requires Acked(Refresh(es, bs, probe, cloud, now), k, digest)
    ensures Acked(es, k, digest) || (probe && Vouched(bs, cloud, k, digest))
  {
    var found := EnsureDiscovered(es, bs, now);
    if probe { ProbesAck(Cycle(found, 0, None), bs, cloud, now, k, digest); }
    if Acked(found, k, digest) {
      assert Acked(DiscoverAll(es, bs, now), k, digest);
      DiscoveryAcksNothing(es, bs, now, k, digest);
    }
    hide DiscoverAll, ProbeAll, Vouched;
  }

  // ----- an acknowledgement is kept ---------------------------------------------------------

  /** A broken bundle of this shift, or one whose digest is not the acknowledged one. */
  predicate Contradicts(b: Bundle, k: Text, digest: Option<Text>) {
    b.uuid == k && (b.error.Some? || b.digest != digest)
  }

  /** One discovery leaves an acknowledgement as it is, or turns it into a conflict, for cause. */
  lemma AckOnlyToConflict(es: Entries, b: Bundle, now: int, k: Text, digest: Option<Text>)
    requires Acked(es, k, digest) && digest.Some?
    ensures var after := DiscoverOne(es, b, now);
      k in after && (after[k] == es[k] || (after[k].state == CONFLICT && Contradicts(b, k, digest)))
    ensures Contradicts(b, k, digest) ==> DiscoverOne(es, b, now)[k].state == CONFLICT
  {
  }

  lemma ProbeKeepsAck(c: Cycle, b: Bundle, answer: Remote, now: int, k: Text, digest: Option<Text>)
    requires Acked(c.entries, k, digest)
    ensures Acked(Probe(c, b, answer, now).entries, k, digest)
  {
  }

  lemma {:induction false} ProbesKeepAck(c: Cycle, bs: seq<Bundle>, cloud: Text -> Remote, now: int, k: Text, digest: Option<Text>)
    requires Acked(c.entries, k, digest)
    ensures Acked(ProbeAll(c, bs, cloud, now).entries, k, digest)
  {
    hide Probe, Acked;
    if bs != [] {
      var n := |bs| - 1;
      ProbesKeepAck(c, bs[..n], cloud, now, k, digest);
      ProbeKeepsAck(ProbeAll(c, bs[..n], cloud, now), bs[n], cloud(bs[n].uuid), now, k, digest);
    }
  }

  lemma {:induction false} DiscoveryKeepsAck(es: Entries, bs: seq<Bundle>, now: int, k: Text, digest: Option<Text>)
    requires Acked(es, k, digest) && digest.Some?
    requires forall b | b in bs :: !Contradicts(b, k, digest)
    ensures Acked(DiscoverAll(es, bs, now), k, digest)
  {
    hide Contradicts, DiscoverOne;
    if bs != [] {
      var n := |bs| - 1;
      assert bs[n] in bs;
      forall b | b in bs[..n] ensures b in bs {}
      DiscoveryKeepsAck(es, bs[..n], now, k, digest);
      AckOnlyToConflict(DiscoverAll(es, bs[..n], now), bs[n], now, k, digest);
    }
  }

  /** An acknowledgement survives a refresh unless the bundle is broken or its digest changed. */
  lemma RefreshKeepsAck(es: Entries, bs: seq<Bundle>, probe: bool, cloud: Text -> Remote, now: int, k: Text, digest: Option<Text>)
    requires Acked(es, k, digest) && digest.Some?
    requires forall b | b in bs :: !Contradicts(b, k, digest)
    ensures Acked(Refresh(es, bs, probe, cloud, now), k, digest)
  {
    DiscoveryKeepsAck(es, bs, now, k, digest);
    var found := EnsureDiscovered(es, bs, now);
    assert Acked(found, k, digest) by { hide DiscoverAll; }
    ProbesKeepAck(Cycle(found, 0, None), bs, cloud, now, k, digest);
    hide DiscoverAll, ProbeAll;
  }

  // ----- what a contradicted acknowledgement becomes ------------------------------------------

  lemma {:induction false} OthersUndiscovered(es: Entries, bs: seq<Bundle>, now: int, k: Text)
    requires forall b | b in bs :: b.uuid != k
    ensures Lookup(DiscoverAll(es, bs, now), k) == Lookup(es, k)
  {
    hide Discovered;
    if bs != [] {
      assert bs[|bs| - 1] in bs;
      OthersUndiscovered(es, bs[..|bs| - 1], now, k);
    }
  }

  /** Discovery decides about a close at its own turn. */
  lemma {:induction false} DiscoveredAtItsTurn(es: Entries, bs: seq<Bundle>, now: int, i: nat)
    requires DistinctBundles(bs) && i < |bs|
    ensures Lookup(DiscoverAll(es, bs, now), bs[i].uuid)
         == Lookup(DiscoverOne(DiscoverAll(es, bs[..i], now), bs[i], now), bs[i].uuid)
    decreases |bs|
  {
    hide Discovered;
    var n := |bs| - 1;
    if i < n {
      assert bs[..n][i] == bs[i] && bs[..n][..i] == bs[..i];
      DiscoveredAtItsTurn(es, bs[..n], now, i);
    }
  }

  lemma ProbeElsewhere(c: Cycle, b: Bundle, answer: Remote, now: int, k: Text)
    requires b.uuid != k
    ensures Lookup(Probe(c, b, answer, now).entries, k) == Lookup(c.entries, k)
  {
  }

  lemma {:induction false} OthersUnprobed(c: Cycle, bs: seq<Bundle>, cloud: Text -> Remote, now: int, k: Text)
    requires forall b | b in bs :: b.uuid != k
    ensures Lookup(ProbeAll(c, bs, cloud, now).entries, k) == Lookup(c.entries, k)
  {
    hide Probe;
    if bs != [] {
      var n := |bs| - 1;
      assert bs[n] in bs;
      OthersUnprobed(c, bs[..n], cloud, now, k);
      ProbeElsewhere(ProbeAll(c, bs[..n], cloud, now), bs[n], cloud(bs[n].uuid), now, k);
    }
  }

  /** The cloud's answer about a close counts at its own turn. */
  lemma {:induction false} ProbedAtItsTurn(c: Cycle, bs: seq<Bundle>, cloud: Text -> Remote, now: int, i: nat)
    requires DistinctBundles(bs) && i < |bs|
    ensures Lookup(ProbeAll(c, bs, cloud, now).entries, bs[i].uuid)
         == Lookup(Probe(ProbeAll(c, bs[..i], cloud, now), bs[i], cloud(bs[i].uuid), now).entries, bs[i].uuid)
    decreases |bs|
  {
    hide Probe;
    var n := |bs| - 1;
    if i < n {
      assert bs[..n][i] == bs[i] && bs[..n][..i] == bs[..i];
      ProbedAtItsTurn(c, bs[..n], cloud, now, i);
      ProbeElsewhere(ProbeAll(c, bs[..n], cloud, now), bs[n], cloud(bs[n].uuid), now, bs[i].uuid);
    }
  }

  lemma OthersBefore(bs: seq<Bundle>, i: nat)
    requires DistinctBundles(bs) && i < |bs|
    ensures forall b | b in bs[..i] :: b.uuid != bs[i].uuid
  {
    forall b | b in bs[..i] ensures b.uuid != bs[i].uuid {
      var j :| 0 <= j < i && bs[j] == b;
    }
  }

  lemma ContradictedIsFound(es: Entries, bs: seq<Bundle>, now: int, i: nat, digest: Option<Text>)
    requires DistinctBundles(bs) && i < |bs| && digest.Some?
    requires Acked(es, bs[i].uuid, digest) && Contradicts(bs[i], bs[i].uuid, digest)
    ensures var e := Lookup(EnsureDiscovered(es, bs, now), bs[i].uuid);
      e.Some? && e.value.state == CONFLICT && e.value.digest == bs[i].digest
  {
    var b := bs[i];
    var before := DiscoverAll(es, bs[..i], now);
    OthersBefore(bs, i);
    OthersUndiscovered(es, bs[..i], now, b.uuid);
    DiscoveredAtItsTurn(es, bs, now, i);
    AckOnlyToConflict(before, b, now, b.uuid, digest);
    DiscoveredIs(b, Lookup(before, b.uuid), now);
    assert b.uuid in Uuids(bs);
    hide DiscoverAll, Discovered;
  }

  /** A whole refresh turns an acknowledgement that its bundle contradicts into a conflict, and then into
      whatever the cloud's answer at its turn makes of the bundle as it is now: it can be acknowledged
      again, but only with the new digest, and an outage makes it pending. A broken bundle, a refresh that
      asks nothing and a spent probe budget leave the conflict. */
  lemma ContradictedAckBecomes(es: Entries, bs: seq<Bundle>, probe: bool, cloud: Text -> Remote, now: int, i: nat, digest: Option<Text>)
    requires DistinctBundles(bs) && i < |bs| && digest.Some?
    requires Acked(es, bs[i].uuid, digest) && Contradicts(bs[i], bs[i].uuid, digest)
    ensures var b := bs[i];
      var turn := ProbeAll(Cycle(EnsureDiscovered(es, bs, now), 0, None), bs[..i], cloud, now);
      var after := Refresh(es, bs, probe, cloud, now);
      && b.uuid in after
      && after[b.uuid].digest == b.digest
      && after[b.uuid].state ==
           (if !probe || b.error.Some? || turn.probes >= MAX_PROBES then CONFLICT
            else Validated(b, if turn.outage.Some? then turn.outage.value else cloud(b.uuid)).0)
  {
    var b := bs[i];
    var c := Cycle(EnsureDiscovered(es, bs, now), 0, None);
    ContradictedIsFound(es, bs, now, i, digest);
    OthersBefore(bs, i);
    OthersUnprobed(c, bs[..i], cloud, now, b.uuid);
    ProbedAtItsTurn(c, bs, cloud, now, i);
    hide EnsureDiscovered, ProbeAll, Validated, Contradicts, DistinctBundles;
  }

  // ----- a conflict is not kept -------------------------------------------------------------

  /** A probed conflict stays one exactly when the answer used is not an outage and either does not
      echo the request, contradicts itself, or reports a conflict. One outage makes it pending. */
  lemma ConflictStaysIff(c: Cycle, b: Bundle, answer: Remote, now: int)
    requires b.uuid in c.entries && c.entries[b.uuid].state == CONFLICT && b.error.None? && c.probes < MAX_PROBES
    ensures var r := if c.outage.Some? then c.outage.value else answer;
      && (Probe(c, b, answer, now).entries[b.uuid].state == CONFLICT
          <==> r.verdict != UNAVAILABLE
               && (|| !Echoes(r, b) || r.verdict == CloudOther || r.verdict == CloudConflict
                   || r.acknowledged != (r.verdict == CloudAcknowledged)))
      && (r.verdict == UNAVAILABLE ==> Probe(c, b, answer, now).entries[b.uuid].state == PENDING)
  {
  }

  // ----- compaction -------------------------------------------------------------------------

  /** An old acknowledgement keeps its identity and loses its diagnostics. */
  function Compact(e: Entry): Entry {
    e.(reason := FromCloud([]), lastProbeAt := None, probes := 0)
  }

  /** The same closes with the same states and digests; acknowledged rows may be compacted. */
  ghost predicate SameMarks(a: Entries, b: Entries) {
    && a.Keys == b.Keys
    && forall k | k in a :: b[k] == a[k] || (a[k].state == ACKNOWLEDGED && b[k] == Compact(a[k]))
  }

  // ----- whole runs -------------------------------------------------------------------------

  /** A committed close is tracked as it is discovered. */
  datatype Event =
    | Track(bundle: Bundle, now: int)
    | DoRefresh(bundles: seq<Bundle>, probe: bool, cloud: Text -> Remote, now: int)

  function After(es: Entries, ev: Event): Entries {
    match ev
    case Track(b, now) => DiscoverOne(es, b, now)
    case DoRefresh(bs, probe, cloud, now) => Refresh(es, bs, probe, cloud, now)
  }

  /** Every write may also compact old acknowledgements. */
  ghost predicate IsRun(run: seq<Entries>, evs: seq<Event>) {
    && |run| == |evs| + 1
    && run[0] == map[]
    && forall i | 0 <= i < |evs| :: SameMarks(After(run[i], evs[i]), run[i + 1])
  }

  ghost predicate VouchedBefore(evs: seq<Event>, i: nat, k: Text, digest: Option<Text>)
    requires i <= |evs|
  {
    exists j :: 0 <= j < i && evs[j].DoRefresh? && evs[j].probe && Vouched(evs[j].bundles, evs[j].cloud, k, digest)
  }

  /** In every run that starts with an empty tracker, the digest of every acknowledged entry was echoed
      exactly by some cloud verdict of the run. */
  lemma {:induction false} EveryAckWasEchoed(run: seq<Entries>, evs: seq<Event>, i: nat, k: Text)
    requires IsRun(run, evs) && i < |run| && k in run[i] && run[i][k].state == ACKNOWLEDGED
    ensures run[i][k].digest.Some? && VouchedBefore(evs, i, k, run[i][k].digest)
  {
    if i > 0 {
      var digest := run[i][k].digest;
      var ev := evs[i - 1];
      assert SameMarks(After(run[i - 1], ev), run[i]);
      assert Acked(After(run[i - 1], ev), k, digest);
      if ev.Track? {
        DiscoveredIs(ev.bundle, Lookup(run[i - 1], ev.bundle.uuid), ev.now);
        hide Discovered;
        assert Acked(run[i - 1], k, digest);
      } else {
        RefreshAcksEchoed(run[i - 1], ev.bundles, ev.probe, ev.cloud, ev.now, k, digest);
      }
      hide After, Vouched;
      if Acked(run[i - 1], k, digest) {
        EveryAckWasEchoed(run, evs, i - 1, k);
        var j :| 0 <= j < i - 1 && evs[j].DoRefresh? && evs[j].probe && Vouched(evs[j].bundles, evs[j].cloud, k, digest);
        assert VouchedBefore(evs, i, k, digest);
      } else {
        var b :| b in ev.bundles && b.digest == digest && digest.Some? by { VouchedHas(ev, k, digest); }
        assert evs[i - 1].probe;
      }
    }
  }

  lemma VouchedHas(ev: Event, k: Text, digest: Option<Text>)
    requires ev.DoRefresh? && Vouched(ev.bundles, ev.cloud, k, digest)
    ensures exists b :: b in ev.bundles && b.digest == digest && digest.Some?
  {
  }
}
