/** The order-audit collector as it runs: files, cursors and cache updated in place. */
module EvidenceCollector {
  import opened Common
  import opened Text
  import opened EvidenceFiles
  import opened EvidenceCursors
  import opened EvidenceStorage
  import C = EvidenceCache

  function Contents(archives: seq<Archive>): seq<Bytes> {
    seq(|archives|, i requires 0 <= i < |archives| => archives[i].bytes)
  }

  datatype Tail = CannotRecover | Failed | Done(cache: C.Cache)

  lemma NoEvidenceIs(log: Log)
    ensures NoEvidence(log) <==> !C.AnyEvidence(Contents(log.archives), log.active)
  {
    if !NoEvidence(log) && log.active == [] {
      var a :| a in log.archives && a.bytes != [];
      var i :| 0 <= i < |log.archives| && log.archives[i] == a;
      assert Contents(log.archives)[i] in Contents(log.archives);
    }
    if NoEvidence(log) {
      forall b | b in Contents(log.archives) ensures b == [] {
        var i :| 0 <= i < |log.archives| && Contents(log.archives)[i] == b;
        assert log.archives[i] in log.archives;
      }
    }
  }

  // ----- deleting one archive at a time -----------------------------------------------------

  function Without(archives: seq<Archive>, k: nat): seq<Archive>
    requires k < |archives|
  {
    archives[..k] + archives[k + 1..]
  }

  lemma {:induction false} YoungSkipsExpired(archives: seq<Archive>, k: nat, stamps: map<nat, int>, cutoff: Option<int>)
    requires k < |archives| && Expired(archives[k], stamps, cutoff)
    ensures Young(Without(archives, k), stamps, cutoff) == Young(archives, stamps, cutoff)
  {
    if k == 0 {
      assert Without(archives, 0) == archives[1..];
    } else {
      YoungSkipsExpired(archives[1..], k - 1, stamps, cutoff);
      assert Without(archives, k)[1..] == Without(archives[1..], k - 1);
      assert Without(archives, k)[0] == archives[0];
    }
  }

  lemma {:induction false} YoungIsAll(archives: seq<Archive>, stamps: map<nat, int>, cutoff: Option<int>)
    requires forall a | a in archives :: !Expired(a, stamps, cutoff)
    ensures Young(archives, stamps, cutoff) == archives
  {
    if archives != [] {
      assert archives == [archives[0]] + archives[1..];
      YoungIsAll(archives[1..], stamps, cutoff);
    }
  }

  lemma WithoutAscending(archives: seq<Archive>, k: nat)
    requires k < |archives| && Ascending(archives)
    ensures Ascending(Without(archives, k))
    ensures forall a | a in Without(archives, k) :: a.name != archives[k].name
  {
    var r := Without(archives, k);
    forall a | a in r ensures a.name != archives[k].name {
      var i :| 0 <= i < |r| && r[i] == a;
      assert a == archives[if i < k then i else i + 1];
    }
  }

  /** Every archive still there has the cursors it had. */
  ghost predicate CursorsKept(before: map<nat, Cursors>, after: map<nat, Cursors>, archives: seq<Archive>) {
    && (forall n | n in after :: n in before && after[n] == before[n])
    && (Ascending(archives) ==> forall a | a in archives && a.name in before :: a.name in after)
  }

  lemma CursorsStillKept(before: map<nat, Cursors>, after: map<nat, Cursors>, archives: seq<Archive>, k: nat)
    requires k < |archives| && CursorsKept(before, after, archives) && Ascending(archives)
    ensures CursorsKept(before, after - {archives[k].name}, Without(archives, k))
  {
    WithoutAscending(archives, k);
    forall a | a in Without(archives, k) ensures a in archives {
    }
    hide Ascending;
  }

  // ----- a rotation is the protocol's rotation and prunings -----------------------------------

  /** The archives `names` deleted one after the other. */
  function Dropped(log: Log, names: seq<nat>): Log
    decreases |names|
  {
    if names == [] then log else Dropped(WithoutArchive(log, names[0]), names[1..])
  }

  predicate Droppable(log: Log, names: seq<nat>)
    decreases |names|
  {
    names != [] ==> HasArchive(log, names[0]) && Droppable(WithoutArchive(log, names[0]), names[1..])
  }

  lemma {:induction false} DropOneMore(log: Log, names: seq<nat>, name: nat)
    ensures Dropped(log, names + [name]) == WithoutArchive(Dropped(log, names), name)
    ensures Droppable(log, names + [name]) <==> Droppable(log, names) && HasArchive(Dropped(log, names), name)
    decreases |names|
  {
    hide WithoutArchive, HasArchive;
    if names == [] {
      assert [] + [name] == [name] && [name][1..] == [];
    } else {
      assert (names + [name])[1..] == names[1..] + [name];
      DropOneMore(WithoutArchive(log, names[0]), names[1..], name);
    }
  }

  lemma WithoutParts(archives: seq<Archive>, k: nat)
    requires k < |archives|
    ensures Without(archives, k) == if k == 0 then archives[1..] else [archives[0]] + Without(archives[1..], k - 1)
  {
    if k > 0 {
      assert archives[..k] == [archives[0]] + archives[1..][..k - 1];
    }
  }

  lemma LaterName(archives: seq<Archive>, k: nat)
    requires 0 < k < |archives| && forall b | b in archives[1..] :: archives[0].name < b.name
    ensures archives[1..][k - 1] == archives[k] && archives[0].name != archives[k].name
  {
    assert archives[1..][k - 1] in archives[1..];
  }

  lemma {:induction false} KeptIsWithout(archives: seq<Archive>, k: nat)
    requires k < |archives| && Ascending(archives)
    ensures Kept(archives, archives[k].name) == Without(archives, k)
    decreases k
  {
    hide Ascending, Without;
    WithoutParts(archives, k);
    HeadBelow(archives);
    if k == 0 {
      KeptAll(archives[1..], archives[0].name);
    } else {
      LaterName(archives, k);
      KeptIsWithout(archives[1..], k - 1);
    }
  }

  lemma {:induction false} KeptAll(archives: seq<Archive>, name: nat)
    requires forall a | a in archives :: a.name != name
    ensures Kept(archives, name) == archives
  {
    if archives != [] {
      assert archives == [archives[0]] + archives[1..];
      KeptAll(archives[1..], name);
    }
  }

  lemma {:induction false} DropIgnoresDisk(a: Log, b: Log, names: seq<nat>)
    requires b == a.(disk := b.disk)
    ensures Droppable(a, names) <==> Droppable(b, names)
    ensures Flush(Dropped(a, names)) == Flush(Dropped(b, names))
    decreases |names|
  {
    hide Kept;
    if names != [] {
      DropIgnoresDisk(WithoutArchive(a, names[0]), WithoutArchive(b, names[0]), names[1..]);
    }
  }

  function Prunes(w: World, names: seq<nat>): World
    decreases |names|
  {
    if names == [] then w else Prunes(Next(w, Prune(names[0])), names[1..])
  }

  lemma {:induction false} DropsArePrunings(w: World, names: seq<nat>)
    requires Inv(w) && Droppable(w.log, names)
    ensures Inv(Prunes(w, names)) && Prunes(w, names).log == Dropped(w.log, names)
    decreases |names|
  {
    hide Inv, Kept, Enabled;
    if names != [] {
      var name := names[0];
      assert Enabled(w, Prune(name)) by { PruneIsEnabled(w, name); }
      StepKeeps(w, Prune(name));
      DropsArePrunings(Next(w, Prune(name)), names[1..]);
    }
  }

  lemma PruneIsEnabled(w: World, name: nat)
    requires HasArchive(w.log, name)
    ensures Enabled(w, Prune(name))
  {
  }

  /** What rotating and pruning leave of the collector. */
  ghost predicate RotatesTo(before: Log, after: Log, rotated: bool) {
    if rotated then exists names :: Droppable(Rotated(before), names) && after == Flush(Dropped(Rotated(before), names))
    else after == before
  }

  /** The collector's rotation is a rotation of the delivery protocol, then prunings, then a flush, so it
      keeps every recipient's cursor true, also if it crashes half-way through the prunings. */
  lemma RotationIsSteps(w: World, after: Log)
    requires Inv(w) && Enabled(w, Rotate) && RotatesTo(w.log, after, true)
    ensures exists names :: Inv(Prunes(Next(w, Rotate), names)) && Next(Prunes(Next(w, Rotate), names), WriteIndex).log == after
  {
    hide Inv, Dropped, Enabled;
    var names :| Droppable(Rotated(w.log), names) && after == Flush(Dropped(Rotated(w.log), names));
    StepKeeps(w, Rotate);
    DropsArePrunings(Next(w, Rotate), names);
    assert Next(Prunes(Next(w, Rotate), names), WriteIndex).log == after;
  }

  class OrderAuditCollector {
    const limit: nat
    const archiveLimit: nat
    var active: Bytes
    var generation: nat
    var archives: seq<Archive>
    var stamps: map<nat, int>
    var cursors: Cursors
    var archived: map<nat, Cursors>
    var disk: Index
    var cache: C.Cache
    var index: C.Index
    var dirty: nat
    var writtenAt: int

    constructor (log: Log, limit: nat, archiveLimit: nat, stamps: map<nat, int>, cache: C.Cache, index: C.Index)
      ensures Value() == log && this.limit == limit && this.archiveLimit == archiveLimit
      ensures this.stamps == stamps && this.cache == cache && this.index == index
      ensures dirty == 0 && writtenAt == 0
    {
      this.limit, this.archiveLimit, this.stamps := limit, archiveLimit, stamps;
      active, generation, archives := log.active, log.generation, log.archives;
      cursors, archived, disk := log.cursors, log.archived, log.disk;
      this.cache, this.index := cache, index;
      dirty, writtenAt := 0, 0;
    }

    function Value(): Log
      reads this
    {
      Log(active, generation, archives, cursors, archived, disk)
    }

    /** Write the index atomically. */
    method FlushIndex(now: int)
      modifies this`disk, this`index, this`dirty, this`writtenAt
      ensures Value() == Flush(old(Value()))
      ensures index == C.Index(cache, Some(|active|), Contents(archives))
      ensures dirty == 0 && writtenAt == now
    {
      disk := Index(cursors, archived);
      index := C.Index(cache, Some(|active|), Contents(archives));
      dirty, writtenAt := 0, now;
    }

    /** Write the index unless it was written lately and changed little since. */
    method FlushThrottled(force: bool, now: int) returns (written: bool)
      modifies this`disk, this`index, this`dirty, this`writtenAt
      ensures written == (force || (old(dirty) > 0 && (old(dirty) >= C.FLUSH_CHANGES || now - old(writtenAt) >= C.FLUSH_SECONDS)))
      ensures Value() == if written then Flush(old(Value())) else old(Value())
      ensures index == if written then C.Index(cache, Some(|active|), Contents(archives)) else old(index)
      ensures dirty == (if written then 0 else old(dirty)) && writtenAt == if written then now else old(writtenAt)
    {
      if dirty == 0 && !force { return false; }
      if !force && dirty < C.FLUSH_CHANGES && now - writtenAt < C.FLUSH_SECONDS { return false; }
      FlushIndex(now);
      written := true;
    }

    // ----- reading ---------------------------------------------------------------------------

    static method ReadLine(f: Bytes, from: nat) returns (end: nat)
      requires from <= |f|
      ensures end == LineEnd(f, from)
    {
      end := from;
      while end < |f| && f[end] != Newline()
        invariant from <= end <= |f| && LineEnd(f, end) == LineEnd(f, from)
      {
        end := end + 1;
      }
      if end < |f| {
        end := end + 1;
      }
    }

    /** Read one file into the cache; None when a line raised. */
    static method ReadFile(f: Bytes, parse: Bytes -> C.Parsed, from: C.Cache) returns (r: Option<C.Cache>)
      ensures r == C.Rebuilt(C.Lines(f), parse, from)
    {
      var found := from;
      var rest := f;
      while rest != []
        invariant C.Rebuilt(C.Lines(f), parse, from) == C.Rebuilt(C.Lines(rest), parse, found)
        decreases |rest|
      {
        var end := ReadLine(rest, 0);
        var line := rest[..end];
        if EndsLine(line) {
          assert C.Lines(rest)[0] == line && C.Lines(rest)[1..] == C.Lines(rest[end..]);
          match parse(line) {
            case NotJson =>
            case NotObject => return None;
            case Misshapen => return None;
            case Record(r) => found := C.Applied(found, r);
          }
        } else {
          assert C.Lines(rest) == [] && C.Lines(rest[end..]) == [];
        }
        rest := rest[end..];
      }
      r := Some(found);
    }

    /** Rebuild the cache from every retained file; false when a file raised. */
    method RebuildCacheFromRaw(parse: Bytes -> C.Parsed) returns (ok: bool)
      modifies this`cache
      ensures var r := C.RebuildAll(Contents(archives), active, parse);
        ok == r.Some? && cache == if ok then r.value else old(cache)
    {
      hide C.AllLines, C.Lines, C.Rebuilt;
      var files := Contents(archives) + [active];
      var found := C.NoCache();
      assert files[0..] == files;
      for k := 0 to |files|
        invariant cache == old(cache)
        invariant C.Rebuilt(C.AllLines(files), parse, C.NoCache()) == C.Rebuilt(C.AllLines(files[k..]), parse, found)
      {
        C.DropFirst(files[k..]);
        assert files[k..][1..] == files[k + 1..];
        C.RebuiltSplit(C.Lines(files[k]), C.AllLines(files[k + 1..]), parse, found);
        var r := ReadFile(files[k], parse, found);
        if r.None? { return false; }
        found := r.value;
      }
      NothingLeft(files, |files|, parse, found);
      cache := found;
      ok := true;
    }

    static lemma NothingLeft(files: seq<Bytes>, k: nat, parse: Bytes -> C.Parsed, from: C.Cache)
      requires k == |files|
      ensures C.Rebuilt(C.AllLines(files[k..]), parse, from) == Some(from)
    {
    }

    /** Apply what was appended after `start` to the cache the index holds. */
    method RecoverAppendedTail(start: nat, parse: Bytes -> C.Parsed) returns (r: Tail)
      requires start <= |active|
      ensures !Boundary(active, start) ==> r == CannotRecover
      ensures Boundary(active, start) ==>
        r == match C.Recovered(C.Lines(active[start..]), parse, index.cache) case None => Failed case Some(c) => Done(c)
    {
      if start > 0 && active[start - 1] != Newline() {
        return CannotRecover;
      }
      var found := index.cache;
      var rest := active[start..];
      while rest != []
        invariant C.Recovered(C.Lines(active[start..]), parse, index.cache) == C.Recovered(C.Lines(rest), parse, found)
        decreases |rest|
      {
        var end := ReadLine(rest, 0);
        var line := rest[..end];
        if EndsLine(line) {
          assert C.Lines(rest)[0] == line && C.Lines(rest)[1..] == C.Lines(rest[end..]);
          match parse(line) {
            case NotJson =>
            case NotObject =>
            case Misshapen => return Failed;
            case Record(r) => found := C.Applied(found, r);
          }
        } else {
          assert C.Lines(rest) == [] && C.Lines(rest[end..]) == [];
        }
        rest := rest[end..];
      }
      r := Done(found);
    }

    /** The index does not say everything about the files: another set of archives, or another length. */
    predicate Stale()
      reads this
    {
      C.AnyEvidence(Contents(archives), active)
      && !(index.manifest == Contents(archives) && index.bytes == Some(|active|))
    }

    /** A restart: cursors from the index, the cache from the index, the tail, or all files; what had to
        be read is flushed. */
    method LoadIndex(parse: Bytes -> C.Parsed, now: int) returns (ok: bool)
      modifies this
      ensures active == old(active) && archives == old(archives) && stamps == old(stamps)
      ensures var r := C.Loaded(Contents(archives), active, old(index), parse);
        ok == r.Some? && (ok ==> cache == r.value)
      ensures Value() == if ok && old(Stale()) then Flush(Reloaded(old(Value()))) else Reloaded(old(Value()))
      ensures index == if ok && old(Stale()) then C.Index(cache, Some(|active|), Contents(archives)) else old(index)
    {
      hide C.Lines, C.Recovered;
      NoEvidenceIs(Value());
      if NoEvidence(Value()) {
        cache, cursors, archived := C.NoCache(), map[], map[];
        return true;
      }
      cursors, archived := disk.cursors, disk.archived;
      if index.manifest != Contents(archives) || index.bytes.None? || index.bytes.value > |active| {
        ok := RebuildCacheFromRaw(parse);
        if ok { FlushIndex(now); }
      } else if index.bytes.value < |active| {
        var tail := RecoverAppendedTail(index.bytes.value, parse);
        match tail {
          case CannotRecover => ok := RebuildCacheFromRaw(parse);
          case Failed => ok := false;
          case Done(c) => cache, ok := c, true;
        }
        if ok { FlushIndex(now); }
      } else {
        cache, ok := index.cache, true;
      }
    }

    // ----- retention -------------------------------------------------------------------------

    method DeleteArchive(k: nat)
      requires k < |archives|
      modifies this`archives, this`archived
      ensures archives == Without(old(archives), k)
      ensures archived == old(archived) - {old(archives)[k].name}
      ensures Ascending(old(archives)) ==> Value() == WithoutArchive(old(Value()), old(archives)[k].name)
    {
      if Ascending(archives) { KeptIsWithout(archives, k); }
      hide Kept;
      archived := archived - {archives[k].name};
      archives := archives[..k] + archives[k + 1..];
    }

    /** First by age, then oldest first until the rest fits. */
    method PruneArchives(cutoff: Option<int>) returns (changed: bool)
      requires Ascending(archives)
      modifies this`archives, this`archived
      ensures archives == Fitting(Young(old(archives), stamps, cutoff), archiveLimit)
      ensures Ascending(archives) && CursorsKept(old(archived), archived, archives)
      ensures !changed ==> archives == old(archives)
      ensures exists names :: Droppable(old(Value()), names) && Value() == Dropped(old(Value()), names)
    {
      hide Ascending, CursorsKept, Expired, Young, Fitting, WithoutArchive, Kept, Dropped, Droppable, HasArchive;
      changed := false;
      ghost var before, names := Value(), [];
      assert Droppable(before, names) && Value() == Dropped(before, names) by { NothingDropped(before); }
      assert CursorsKept(archived, archived, archives) by { KeptAtFirst(archived, archives); }
      var k := 0;
      while k < |archives|
        invariant k <= |archives|
        invariant Young(archives, stamps, cutoff) == Young(old(archives), stamps, cutoff)
        invariant forall i | 0 <= i < k :: !Expired(archives[i], stamps, cutoff)
        invariant Ascending(archives) && CursorsKept(old(archived), archived, archives)
        invariant !changed ==> archives == old(archives)
        invariant Droppable(before, names) && Value() == Dropped(before, names)
        decreases |archives| - k
      {
        if Expired(archives[k], stamps, cutoff) {
          YoungSkipsExpired(archives, k, stamps, cutoff);
          WithoutAscending(archives, k);
          CursorsStillKept(old(archived), archived, archives, k);
          HasThat(Value(), k);
          DropOneMore(before, names, archives[k].name);
          names := names + [archives[k].name];
          DeleteArchive(k);
          changed := true;
        } else {
          k := k + 1;
        }
      }
      YoungIsAll(archives, stamps, cutoff);
      var total := 0;
      var i := |archives|;
      assert archives[i..] == [];
      while i > 0
        invariant i <= |archives| && total == Total(archives[i..])
      {
        i := i - 1;
        assert archives[i..][1..] == archives[i + 1..];
        total := total + |archives[i].bytes|;
      }
      assert archives[0..] == archives;
      while total > archiveLimit && archives != []
        invariant total == Total(archives)
        invariant Fitting(archives, archiveLimit) == Fitting(Young(old(archives), stamps, cutoff), archiveLimit)
        invariant Ascending(archives) && CursorsKept(old(archived), archived, archives)
        invariant !changed ==> archives == old(archives)
        invariant Droppable(before, names) && Value() == Dropped(before, names)
        decreases |archives|
      {
        FittingDropsFirst(archives, archiveLimit);
        WithoutAscending(archives, 0);
        CursorsStillKept(old(archived), archived, archives, 0);
        total := total - |archives[0].bytes|;
        assert Without(archives, 0) == archives[1..];
        HasThat(Value(), 0);
        DropOneMore(before, names, archives[0].name);
        names := names + [archives[0].name];
        DeleteArchive(0);
        changed := true;
      }
      FittingStops(archives, archiveLimit);
    }

    static lemma NothingDropped(log: Log)
      ensures Droppable(log, []) && Dropped(log, []) == log
    {
    }

    static lemma HasThat(log: Log, k: nat)
      requires k < |log.archives|
      ensures HasArchive(log, log.archives[k].name)
    {
      assert log.archives[k] in log.archives;
    }

    static lemma KeptAtFirst(archived: map<nat, Cursors>, archives: seq<Archive>)
      ensures CursorsKept(archived, archived, archives)
    {
    }

    static lemma FittingDropsFirst(archives: seq<Archive>, limit: nat)
      requires archives != [] && Total(archives) > limit
      ensures Fitting(archives, limit) == Fitting(archives[1..], limit)
    {
    }

    static lemma FittingStops(archives: seq<Archive>, limit: nat)
      requires archives == [] || Total(archives) <= limit
      ensures Fitting(archives, limit) == archives
    {
    }

    // ----- writing ---------------------------------------------------------------------------

    /** The active file becomes the newest archive, whole lines only, and keeps its cursors. */
    method StartSegment(modified: int)
      requires active != []
      modifies this`active, this`generation, this`archives, this`stamps, this`archived, this`cursors
      ensures Flush(Value()) == Rotated(old(Value())) && active == []
      ensures stamps == old(stamps)[old(generation) := modified]
    {
      if active[|active| - 1] != Newline() {
        active := active + [Newline()];
      }
      archives := archives + [Archive(generation, active)];
      stamps := stamps[generation := modified];
      archived := archived[generation := cursors];
      cursors := map chat | chat in cursors :: 0;
      active, generation := [], generation + 1;
    }

    /** Start a fresh segment before the active file exceeds its limit. The archived file keeps the
        modification time of its last byte. */
    method RotateIfNeeded(incoming: nat, modified: int, cutoff: Option<int>, now: int) returns (rotated: bool)
      requires ArchivesSound(Value())
      modifies this
      ensures rotated == RotatesFor(old(active), incoming, limit)
      ensures cache == old(cache) && RotatesTo(old(Value()), Value(), rotated)
      ensures !rotated ==> stamps == old(stamps) && index == old(index) && dirty == old(dirty) && writtenAt == old(writtenAt)
      ensures rotated ==>
        (var r := Rotated(old(Value()));
         && active == r.active && generation == r.generation && cursors == r.cursors
         && stamps == old(stamps)[old(generation) := modified]
         && archives == Fitting(Young(r.archives, stamps, cutoff), archiveLimit)
         && CursorsKept(r.archived, archived, archives)
         && disk == Index(cursors, archived)
         && index == C.Index(cache, Some(0), Contents(archives)) && dirty == 0 && writtenAt == now)
    {
      hide Young, Fitting, CursorsKept, Ascending, Kept, Dropped, Droppable, Rotated, EndsLine;
      rotated := |active| > 0 && |active| + incoming > limit;
      if rotated {
        RotateKeepsArchives(Value());
        StartSegment(modified);
        ghost var moved := Value();
        var _ := PruneArchives(cutoff);
        ghost var names :| Droppable(moved, names) && Value() == Dropped(moved, names);
        DropIgnoresDisk(moved, Flush(moved), names);
        FlushIndex(now);
        assert Value() == Flush(Dropped(Rotated(old(Value())), names));
      }
    }

    /** Append one record, bound to the hash of the record before it. */
    method Append(before: Bytes, after: Bytes, hash: Bytes -> Bytes, modified: int, cutoff: Option<int>, now: int)
      returns (rotated: bool)
      requires ArchivesSound(Value()) && forall b :: Digest(hash(b))
      modifies this
      ensures rotated == RotatesFor(old(active), Estimate(before, after), limit)
      ensures var previous := Predecessor(old(cache).lastSha);
        var sha := hash(Canonical(before, after, previous));
        && active == AfterAppend(old(active), before, after, previous, sha, limit)
        && cache == old(cache).(lastSha := sha)
      ensures RotatesTo(old(Value()), Value().(active := if rotated then [] else old(active)), rotated)
      ensures !rotated ==> stamps == old(stamps) && index == old(index) && dirty == old(dirty) && writtenAt == old(writtenAt)
      ensures rotated ==>
        && stamps == old(stamps)[old(generation) := modified]
        && archives == Fitting(Young(Rotated(old(Value())).archives, stamps, cutoff), archiveLimit)
        && disk == Index(cursors, archived)
        && index == C.Index(old(cache), Some(0), Contents(archives)) && dirty == 0 && writtenAt == now
    {
      hide Young, Fitting, RotatesTo, CursorsKept, ArchivesSound, Rotated;
      rotated := RotateIfNeeded(|before + after| + 256, modified, cutoff, now);
      ghost var moved := Value();
      assert rotated ==> active == [] by { RotatedIsEmpty(old(Value())); }
      assert !rotated ==> moved == old(Value()) by { NotRotated(old(Value()), moved); }
      var previous := Predecessor(cache.lastSha);
      var sha := hash(Canonical(before, after, previous));
      if active != [] && active[|active| - 1] != Newline() {
        active := active + [Newline()];
      }
      active := active + Encoded(before, after, previous, sha);
      cache := cache.(lastSha := sha);
      assert Value().(active := if rotated then [] else old(active)) == moved;
    }

    static lemma RotatedIsEmpty(log: Log)
      ensures Rotated(log).active == []
    {
    }

    static lemma NotRotated(before: Log, after: Log)
      ensures RotatesTo(before, after, false) ==> after == before
    {
    }

    /** Record a snapshot of an order unless its fingerprint is the last one recorded. The cache in memory
        becomes what reading the record back would make it, and the index is written at once after a
        rotation and otherwise as often as the throttle lets it. */
    method Capture(key: Text, fingerprint: Text, capturedAt: Text, force: bool, before: Bytes, after: Bytes,
                   hash: Bytes -> Bytes, modified: int, cutoff: Option<int>, now: int)
      returns (captured: bool, rotated: bool, written: bool)
      requires ArchivesSound(Value()) && forall b :: Digest(hash(b))
      requires fingerprint != [] && capturedAt != []
      modifies this
      ensures captured == (force || !C.Known(old(cache), key, fingerprint))
      ensures C.Known(cache, key, fingerprint)
      ensures !captured ==> Value() == old(Value()) && cache == old(cache) && index == old(index)
      ensures captured ==>
        (var previous := Predecessor(old(cache).lastSha);
         var sha := hash(Canonical(before, after, previous));
         && active == AfterAppend(old(active), before, after, previous, sha, limit)
         && cache == C.Applied(old(cache), C.Rec(capturedAt, C.OrderSnapshot, key, fingerprint, previous.GetOr([]), sha)))
      ensures captured ==>
        && rotated == RotatesFor(old(active), Estimate(before, after), limit)
        && written == (rotated || old(dirty) + 1 >= 10 || now - old(writtenAt) >= 10)
        && index == (if written then C.Index(cache, Some(|active|), Contents(archives)) else old(index))
        && dirty == (if written then 0 else old(dirty) + 1) && writtenAt == if written then now else old(writtenAt)
      ensures captured && rotated ==> RotatesTo(old(Value()), Value().(active := []), true)
      ensures captured && !rotated ==>
        (var grown := old(Value()).(active := active); Value() == if written then Flush(grown) else grown)
    {
      if !force && key in cache.fingerprints && cache.fingerprints[key] == fingerprint {
        return false, false, false;
      }
      hide AfterAppend, ArchivesSound, RotatesFor, RotatesTo, Young, Fitting, Rotated;
      rotated := Append(before, after, hash, modified, cutoff, now);
      ghost var appended := Value();
      var known := cache;
      cache := known.(fingerprints := known.fingerprints[key := fingerprint]);
      cache := cache.(count := known.count + 1);
      cache := cache.(lastCapture := capturedAt);
      dirty := dirty + 1;
      assert Value() == appended;
      written := FlushThrottled(rotated, now);
      captured := true;
      NotRotated(old(Value()), appended.(active := old(active)));
      assert rotated ==> Value() == appended;
    }

    // ----- delivery --------------------------------------------------------------------------

    method MarkDelivered(chat: nat, seg: Segment, now: int)
      modifies this
      ensures Value() == Acknowledged(old(Value()), chat, seg)
      ensures cache == old(cache) && stamps == old(stamps)
      ensures index == C.Index(cache, Some(|active|), Contents(archives))
    {
      match seg.source {
        case ActiveFile =>
          var current := if chat in cursors then cursors[chat] else 0;
          cursors := cursors[chat := Max(current, seg.end)];
        case ArchiveFile(name) =>
          var known := false;
          for i := 0 to |archives|
            invariant known <==> exists a :: a in archives[..i] && a.name == name
          {
            assert archives[..i + 1] == archives[..i] + [archives[i]];
            if archives[i].name == name { known := true; }
          }
          assert archives[..|archives|] == archives;
          if known {
            var offsets: Cursors := if name in archived then archived[name] else map[];
            var current := if chat in offsets then offsets[chat] else 0;
            archived := archived[name := offsets[chat := Max(current, seg.end)]];
          }
      }
      FlushIndex(now);
    }

    static method SegmentEndOf(f: Bytes, start: nat, maxBytes: int) returns (end: nat)
      requires start <= |f|
      ensures end == SegmentEnd(f, start, maxBytes)
    {
      end := Min(start + Max(1, maxBytes), |f|);
      if end < |f| && f[end - 1] != Newline() {
        end := ReadLine(f, end);
      }
      assert end == ReadEnd(f, start, maxBytes);
      hide ReadEnd, LineEnd;
      ghost var read := end;
      while end > start && f[end - 1] != Newline()
        invariant start <= end <= read && LastBreak(f, start, end) == LastBreak(f, start, read)
      {
        end := end - 1;
      }
    }

    /** Freeze the next whole-line segment for one recipient, oldest lagging archive first. */
    method PrepareIncrementalExport(chat: nat, maxBytes: int) returns (f: Flight)
      ensures f == Prepared(Value(), chat, maxBytes)
    {
      hide SegmentEnd, Lagging, LastBreak, ReadEnd;
      var k := 0;
      while k < |archives|
        invariant k <= |archives| && Lagging(Value(), chat, k) == Lagging(Value(), chat, 0)
      {
        var a := archives[k];
        var start := ArchiveAt(Value(), a.name, chat);
        if start > |a.bytes| {
          start := 0;
        }
        LaggingStep(Value(), chat, k);
        if start < |a.bytes| {
          var end := SegmentEndOf(a.bytes, start, maxBytes);
          return Flight(chat, Segment(ArchiveFile(a.name), start, end), a.name, a.bytes[start..end]);
        }
        k := k + 1;
      }
      var start := At(cursors, chat);
      if start > |active| {
        start := 0;
      }
      var end := SegmentEndOf(active, start, maxBytes);
      f := Flight(chat, Segment(ActiveFile, start, end), generation, active[start..end]);
    }

    static lemma LaggingStep(log: Log, chat: nat, k: nat)
      requires k < |log.archives|
      ensures Lagging(log, chat, k)
           == if StartIn(log, log.archives[k], chat) < |log.archives[k].bytes| then Some(k) else Lagging(log, chat, k + 1)
    {
    }
  }
}
