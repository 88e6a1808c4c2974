/** The tracker as it runs: a durable map updated row by row, compacted after every write. */
module ShiftCloseTracker {
  import opened Common
  import opened Text
  import opened ShiftClose
  import opened ShiftCloseRuns
  import M = ShiftCloseMeaning

  const ACK_HISTORY_LIMIT := 200

  function Stamp(e: Entry): int {
    e.acknowledgedAt.GetOr(e.updatedAt)
  }

  lemma SameMarksUpdate(a: Entries, b: Entries, c: Entries, k: Text, e: Entry)
    requires SameMarks(a, b) && SameMarks(b[k := e], c)
    ensures SameMarks(a[k := e], c)
  {
  }

  /** A clear status is the same either way. */
  lemma SameMarksClear(a: Entries, b: Entries)
    requires SameMarks(a, b)
    ensures Clear(a) <==> Clear(b)
  {
    forall k | k in a ensures a[k].state == b[k].state {
    }
    if Clear(b) {
      forall k | k in a ensures a[k].state != PENDING && a[k].state != CONFLICT {
        assert k in b;
      }
    }
    if Clear(a) {
      forall k | k in b ensures b[k].state != PENDING && b[k].state != CONFLICT {
        assert k in a;
      }
    }
  }

  ghost predicate NewestFirst(es: Entries, keys: seq<Text>) {
    && (forall k | k in keys :: k in es)
    && forall i, j | 0 <= i < j < |keys| && keys[i] in es && keys[j] in es :: Stamp(es[keys[i]]) >= Stamp(es[keys[j]])
  }

  predicate NoRepeats(keys: seq<Text>) {
    forall i, j | 0 <= i < j < |keys| :: keys[i] != keys[j]
  }

  /** All acknowledgements but the newest `ACK_HISTORY_LIMIT` are compacted; nothing else changes. */
  ghost predicate Compacted(a: Entries, b: Entries, keys: seq<Text>) {
    && NewestFirst(a, keys) && NoRepeats(keys)
    && (forall k :: k in keys <==> k in a && a[k].state == ACKNOWLEDGED)
    && a.Keys == b.Keys
    && forall k | k in a ::
         b[k] == if k in keys[Min(ACK_HISTORY_LIMIT, |keys|)..] then Compact(a[k]) else a[k]
  }

  class ShiftCloseTracker {
    var shifts: Entries

    constructor (es: Entries)
      ensures shifts == es
    {
      shifts := es;
    }

    // ----- the bundle ------------------------------------------------------------------------

    static method ReadTenders(ts: seq<RawTender>) returns (r: Result<map<Text, Row>, Fault>)
      ensures r == Expected(ts)
    {
      var expected: map<Text, Row> := map[];
      for i := 0 to |ts|
        invariant Expected(ts[..i]) == Ok(expected)
      {
        assert ts[..i + 1][..i] == ts[..i];
        var fault := TenderFault(ts[i]);
        if fault.Some? {
          FaultStays(ts, i + 1, fault.value);
          return Err(fault.value);
        }
        if ts[i].uuid.value in expected {
          FaultStays(ts, i + 1, RepeatedUuid);
          return Err(RepeatedUuid);
        }
        expected := expected[ts[i].uuid.value := AsRow(ts[i])];
      }
      assert ts[..|ts|] == ts;
      r := Ok(expected);
    }

    static lemma {:induction false} FaultStays(ts: seq<RawTender>, n: nat, fault: Fault)
      requires n <= |ts| && Expected(ts[..n]) == Err(fault)
      ensures Expected(ts) == Err(fault)
    {
      if n == |ts| {
        assert ts[..n] == ts;
      } else {
        assert ts[..|ts| - 1][..n] == ts[..n];
        FaultStays(ts[..|ts| - 1], n, fault);
      }
    }

    static method BuildBundle(s: Shift, digest: Manifest -> Text) returns (b: Bundle)
      ensures b == LocalBundle(s, digest)
    {
      b := Bundle(s.uuid, s.id, None, None, None);
      if s.manifest.NoManifest? { return b.(error := Some(MissingManifest)); }
      if s.manifest.version.None? { return b.(error := Some(BadVersion)); }
      b := b.(version := s.manifest.version, digest := Some(digest(s.manifest)));
      if s.manifest.tenders.None? { return b.(error := Some(NoTenders)); }
      var expected := ReadTenders(s.manifest.tenders.value);
      if expected.Err? { return b.(error := Some(expected.error)); }
      var actual: map<Text, Row> := map[];
      for i := 0 to |s.rows|
        invariant actual == Actual(s.rows[..i])
      {
        assert s.rows[..i + 1][..i] == s.rows[..i];
        actual := actual[s.rows[i].uuid := s.rows[i]];
      }
      assert s.rows[..|s.rows|] == s.rows;
      var missing := expected.value.Keys - actual.Keys;
      var extra := actual.Keys - expected.value.Keys;
      var mismatched := set k | k in expected.value.Keys * actual.Keys && expected.value[k] != actual[k];
      if missing != {} || extra != {} || mismatched != {} {
        assert expected.value != actual by {
          if missing != {} { var k :| k in missing; }
          if extra != {} { var k :| k in extra; }
          if mismatched != {} { var k :| k in mismatched; }
        }
        b := b.(error := Some(RowsDiffer));
      } else {
        NothingDiffers(expected.value, actual, missing, extra, mismatched);
      }
    }

    static lemma NothingDiffers(a: map<Text, Row>, b: map<Text, Row>, missing: set<Text>, extra: set<Text>, mismatched: set<Text>)
      requires missing == a.Keys - b.Keys == {} && extra == b.Keys - a.Keys == {}
      requires mismatched == {} && forall k | k in a.Keys * b.Keys && a[k] != b[k] :: k in mismatched
      ensures a == b
    {
      forall k | k in a ensures k in b && a[k] == b[k] {
        assert k !in missing;
      }
      forall k | k in b ensures k in a {
        assert k !in extra;
      }
    }

    // ----- persistence -----------------------------------------------------------------------

    /** The acknowledged closes, newest first. */
    static method Acknowledged(es: Entries) returns (keys: seq<Text>)
      ensures NewestFirst(es, keys) && NoRepeats(keys)
      ensures forall k :: k in keys <==> k in es && es[k].state == ACKNOWLEDGED
    {
      keys := [];
      var left := es.Keys;
      while left != {}
        invariant left <= es.Keys && NewestFirst(es, keys) && NoRepeats(keys)
        invariant forall k :: k in keys <==> k in es && k !in left && es[k].state == ACKNOWLEDGED
      {
        var k :| k in left;
        left := left - {k};
        if es[k].state == ACKNOWLEDGED {
          var at := 0;
          while at < |keys| && Stamp(es[keys[at]]) >= Stamp(es[k])
            invariant at <= |keys|
            invariant forall i | 0 <= i < at :: Stamp(es[keys[i]]) >= Stamp(es[k])
          {
            at := at + 1;
          }
          InsertKeepsOrder(es, keys, k, at);
          keys := Inserted(keys, k, at);
        }
      }
    }

    static function Inserted(keys: seq<Text>, k: Text, at: nat): seq<Text>
      requires at <= |keys|
    {
      keys[..at] + [k] + keys[at..]
    }

    static lemma InsertAt(keys: seq<Text>, k: Text, at: nat, i: nat)
      requires at <= |keys| && i <= |keys|
      ensures |Inserted(keys, k, at)| == |keys| + 1
      ensures Inserted(keys, k, at)[i] == if i < at then keys[i] else if i == at then k else keys[i - 1]
    {
    }

    static lemma InsertMembers(keys: seq<Text>, k: Text, at: nat)
      requires at <= |keys|
      ensures forall x :: x in Inserted(keys, k, at) <==> x in keys || x == k
    {
      assert keys == keys[..at] + keys[at..];
    }

    static lemma InsertKeepsOrder(es: Entries, keys: seq<Text>, k: Text, at: nat)
      requires at <= |keys| && NewestFirst(es, keys) && NoRepeats(keys) && k in es && k !in keys
      requires forall i | 0 <= i < at :: Stamp(es[keys[i]]) >= Stamp(es[k])
      requires at < |keys| ==> Stamp(es[keys[at]]) < Stamp(es[k])
      ensures NewestFirst(es, Inserted(keys, k, at)) && NoRepeats(Inserted(keys, k, at))
      ensures forall x :: x in Inserted(keys, k, at) <==> x in keys || x == k
    {
      InsertMembers(keys, k, at);
      var r := Inserted(keys, k, at);
      InsertAt(keys, k, at, 0);
      forall i, j | 0 <= i < j < |r| ensures r[i] != r[j] && Stamp(es[r[i]]) >= Stamp(es[r[j]]) {
        InsertAt(keys, k, at, i);
        InsertAt(keys, k, at, j);
        if at < j && i <= at {
          assert Stamp(es[keys[at]]) >= Stamp(es[keys[j - 1]]);
        }
        hide Inserted;
      }
    }

    /** Compact every acknowledgement but the newest; forget none. */
    method PruneEntries()
      modifies this
      ensures SameMarks(old(shifts), shifts)
      ensures exists keys :: Compacted(old(shifts), shifts, keys)
    {
      var before := shifts;
      var keys := Acknowledged(shifts);
      var from := Min(ACK_HISTORY_LIMIT, |keys|);
      for i := from to |keys|
        invariant shifts.Keys == before.Keys
        invariant forall k | k in before :: shifts[k] == if k in keys[from..i] then Compact(before[k]) else before[k]
      {
        NextKey(keys, from, i);
        shifts := shifts[keys[i] := Compact(shifts[keys[i]])];
      }
      assert keys[from..|keys|] == keys[from..] by { WholeTail(keys, from); }
      forall k | k in before && k in keys[from..] ensures before[k].state == ACKNOWLEDGED {
        assert k in keys;
      }
      assert Compacted(before, shifts, keys);
    }

    static lemma WholeTail(keys: seq<Text>, from: nat)
      requires from <= |keys|
      ensures keys[from..|keys|] == keys[from..]
    {
    }

    static lemma NextKey(keys: seq<Text>, from: nat, i: nat)
      requires from <= i < |keys| && NoRepeats(keys)
      ensures keys[from..i + 1] == keys[from..i] + [keys[i]]
      ensures keys[i] in keys && keys[i] !in keys[from..i]
    {
      forall j | 0 <= j < i - from ensures keys[from..i][j] != keys[i] {
        assert keys[from..i][j] == keys[from + j];
      }
    }

    /** Replace one row and compact old acknowledgements in the same write. */
    method PersistEntry(uuid: Text, e: Entry)
      modifies this
      ensures SameMarks(old(shifts)[uuid := e], shifts)
    {
      shifts := shifts[uuid := e];
      PruneEntries();
    }

    // ----- refresh ---------------------------------------------------------------------------

    method EnsureDiscoveredEntries(bs: seq<Bundle>, now: int) returns (entries: Entries)
      modifies this
      ensures entries == EnsureDiscovered(old(shifts), bs, now)
      ensures SameMarks(entries, shifts)
    {
      hide Discovered, SameMarks;
      entries := shifts;
      assert SameMarks(entries, shifts) by { SameAsItself(shifts); }
      for i := 0 to |bs|
        invariant entries == DiscoverAll(old(shifts), bs[..i], now)
        invariant SameMarks(entries, shifts)
      {
        assert bs[..i + 1][..i] == bs[..i];
        var entry := Discovered(bs[i], Lookup(entries, bs[i].uuid), now);
        if entry.Some? {
          ghost var disk := shifts;
          PersistEntry(bs[i].uuid, entry.value);
          SameMarksUpdate(entries, disk, shifts, bs[i].uuid, entry.value);
          entries := entries[bs[i].uuid := entry.value];
        }
      }
      assert bs[..|bs|] == bs;
      var seen := Uuids(bs);
      ghost var found := entries;
      var left := entries.Keys;
      while left != {}
        invariant left <= found.Keys && entries.Keys == found.Keys
        invariant forall k | k in found ::
          entries[k] == if k in left then found[k] else Vanished(found, seen, now)[k]
        invariant SameMarks(entries, shifts)
      {
        var k :| k in left;
        left := left - {k};
        if entries[k].state != ACKNOWLEDGED && k !in seen {
          var missing := entries[k].(state := CONFLICT, reason := LocalMissing, updatedAt := now);
          ghost var disk := shifts;
          PersistEntry(k, missing);
          SameMarksUpdate(entries, disk, shifts, k, missing);
          entries := entries[k := missing];
        }
      }
      assert entries == Vanished(found, seen, now);
    }

    static lemma SameAsItself(es: Entries)
      ensures SameMarks(es, es)
    {
    }

    /** Discover every closed shift, then ask the cloud about the unresolved ones, at most
        `MAX_PROBES` times and only until the first outage. */
    method RefreshAll(bs: seq<Bundle>, probeCloud: bool, cloud: Text -> Remote, now: int) returns (clear: bool)
      modifies this
      ensures SameMarks(Refresh(old(shifts), bs, probeCloud, cloud, now), shifts)
      ensures clear == Clear(Refresh(old(shifts), bs, probeCloud, cloud, now))
      ensures forall k | k in old(shifts) && old(shifts)[k].state != ACKNOWLEDGED && (forall b | b in bs :: b.uuid != k) ::
        k in shifts && shifts[k].state == CONFLICT && shifts[k].reason == LocalMissing && !clear
    {
      M.AllMissingBecome(shifts, bs, probeCloud, cloud, now);
      var entries := EnsureDiscoveredEntries(bs, now);
      if !probeCloud {
        SameMarksClear(entries, shifts);
        clear := IsClear();
        return;
      }
      hide SameMarks, EnsureDiscovered, EntryFor, Validated;
      ghost var found := entries;
      var probes := 0;
      var outage: Option<Remote> := None;
      for i := 0 to |bs|
        invariant Cycle(entries, probes, outage) == ProbeAll(Cycle(found, 0, None), bs[..i], cloud, now)
        invariant SameMarks(entries, shifts)
      {
        assert bs[..i + 1][..i] == bs[..i];
        var b := bs[i];
        if b.uuid in entries && entries[b.uuid].state == ACKNOWLEDGED { continue; }
        if b.error.Some? { continue; }
        if probes >= MAX_PROBES { continue; }
        var e := Lookup(entries, b.uuid);
        var remote;
        if outage.None? {
          remote := cloud(b.uuid);
          probes := probes + 1;
          if remote.verdict == UNAVAILABLE { outage := Some(remote); }
        } else {
          remote := outage.value;
        }
        var (state, reason) := Validated(b, remote);
        var updated := EntryFor(b, e, state, reason, true, now);
        ghost var disk := shifts;
        PersistEntry(b.uuid, updated);
        SameMarksUpdate(entries, disk, shifts, b.uuid, updated);
        entries := entries[b.uuid := updated];
      }
      assert bs[..|bs|] == bs;
      SameMarksClear(entries, shifts);
      clear := IsClear();
    }

    /** A committed close is tracked without a network call. */
    method TrackCommittedShift(b: Bundle, now: int)
      modifies this
      ensures SameMarks(DiscoverOne(old(shifts), b, now), shifts)
    {
      var entry := Discovered(b, Lookup(shifts, b.uuid), now);
      SameAsItself(shifts);
      if entry.Some? {
        PersistEntry(b.uuid, entry.value);
      }
    }

    method IsClear() returns (clear: bool)
      ensures clear == Clear(shifts)
    {
      var left := shifts.Keys;
      while left != {}
        invariant left <= shifts.Keys
        invariant forall k | k in shifts && k !in left :: shifts[k].state != PENDING && shifts[k].state != CONFLICT
      {
        var k :| k in left;
        if shifts[k].state == PENDING || shifts[k].state == CONFLICT { return false; }
        left := left - {k};
      }
      return true;
    }
  }
}
