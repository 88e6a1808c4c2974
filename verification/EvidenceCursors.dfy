/** Per-recipient delivery cursors over an active file and its archives. */
module EvidenceCursors {
  import opened Common
  import opened EvidenceFiles

  /** An archived generation; archives are kept in name order, oldest first. */
  datatype Archive = Archive(name: nat, bytes: Bytes)

  type Cursors = map<nat, nat>

  function At(cursors: Cursors, chat: nat): nat {
    if chat in cursors then cursors[chat] else 0
  }

  /** The flushed part of the index that matters for delivery. */
  datatype Index = Index(cursors: Cursors, archived: map<nat, Cursors>)

  /** The collector's files, its cursors in memory and on disk. The active file's generation is the
      name its archive will get; no acknowledgement carries it. */
  datatype Log = Log(
    active: Bytes, generation: nat, archives: seq<Archive>,
    cursors: Cursors, archived: map<nat, Cursors>, disk: Index)

  datatype Source = ActiveFile | ArchiveFile(name: nat)

  datatype Segment = Segment(source: Source, start: nat, end: nat)

  function ArchiveAt(log: Log, name: nat, chat: nat): nat {
    if name in log.archived then At(log.archived[name], chat) else 0
  }

  predicate HasArchive(log: Log, name: nat) {
    exists a :: a in log.archives && a.name == name
  }

  function Flush(log: Log): Log {
    log.(disk := Index(log.cursors, log.archived))
  }

  // ----- what the collector does ------------------------------------------------------------

  /** Bytes reach the end of the active file: a whole record, or what a crash left of one. */
  function Appended(log: Log, bytes: Bytes): Log {
    log.(active := log.active + bytes)
  }

  /** The rename, before anything is flushed. */
  function Renamed(log: Log): Log {
    log.(archives := log.archives + [Archive(log.generation, Isolated(log.active))],
         active := [], generation := log.generation + 1)
  }

  /** Cursors are relative to their file: the old generation keeps them, the new one starts at zero. */
  function Rotated(log: Log): Log {
    var next := Renamed(log);
    Flush(next.(archived := next.archived[log.generation := log.cursors],
                cursors := map chat | chat in log.cursors :: 0))
  }

  function WithoutArchive(log: Log, name: nat): Log {
    log.(archives := Kept(log.archives, name), archived := log.archived - {name})
  }

  function Kept(archives: seq<Archive>, name: nat): (r: seq<Archive>)
    ensures forall a :: a in r <==> a in archives && a.name != name
  {
    if archives == [] then []
    else if archives[0].name == name then Kept(archives[1..], name)
    else [archives[0]] + Kept(archives[1..], name)
  }

  /** The oldest archive this recipient has not read to its end. */
  function Lagging(log: Log, chat: nat, k: nat): (found: Option<nat>)
    requires k <= |log.archives|
    ensures found.Some? ==> k <= found.value < |log.archives|
    ensures found.Some? ==> StartIn(log, log.archives[found.value], chat) < |log.archives[found.value].bytes|
    ensures found.Some? ==> forall i | k <= i < found.value ::
      StartIn(log, log.archives[i], chat) >= |log.archives[i].bytes|
    ensures found.None? ==> forall i | k <= i < |log.archives| ::
      StartIn(log, log.archives[i], chat) >= |log.archives[i].bytes|
    decreases |log.archives| - k
  {
    if k == |log.archives| then None
    else if StartIn(log, log.archives[k], chat) < |log.archives[k].bytes| then Some(k)
    else Lagging(log, chat, k + 1)
  }

  function StartIn(log: Log, a: Archive, chat: nat): nat {
    if ArchiveAt(log, a.name, chat) > |a.bytes| then 0 else ArchiveAt(log, a.name, chat)
  }

  function StartActive(log: Log, chat: nat): nat {
    if At(log.cursors, chat) > |log.active| then 0 else At(log.cursors, chat)
  }

  /** A segment handed to the transport, remembered with the generation it was read from and its
      bytes; only `seg` comes back with the acknowledgement. */
  datatype Flight = Flight(chat: nat, seg: Segment, generation: nat, bytes: Bytes)

  /** The next segment for one recipient; it is empty when there is nothing to send. */
  function Prepared(log: Log, chat: nat, limit: int): Flight {
    var lagging := Lagging(log, chat, 0);
    if lagging.Some? then
      var a := log.archives[lagging.value];
      var start := StartIn(log, a, chat);
      var end := SegmentEnd(a.bytes, start, limit);
      Flight(chat, Segment(ArchiveFile(a.name), start, end), a.name, a.bytes[start..end])
    else
      var start := StartActive(log, chat);
      var end := SegmentEnd(log.active, start, limit);
      Flight(chat, Segment(ActiveFile, start, end), log.generation, log.active[start..end])
  }

  function Bumped(cursors: Cursors, chat: nat, end: nat): Cursors {
    cursors[chat := Max(At(cursors, chat), end)]
  }

  /** A confirmed receipt; the active file is named by its constant name only. */
  function Acknowledged(log: Log, chat: nat, seg: Segment): Log {
    match seg.source
    case ActiveFile => Flush(log.(cursors := Bumped(log.cursors, chat, seg.end)))
    case ArchiveFile(name) =>
      if HasArchive(log, name) then
        var known := if name in log.archived then log.archived[name] else map[];
        Flush(log.(archived := log.archived[name := Bumped(known, chat, seg.end)]))
      else Flush(log)
  }

  predicate NoEvidence(log: Log) {
    log.active == [] && forall a | a in log.archives :: a.bytes == []
  }

  /** A restart: cursors come back from the flushed index, unless there is no evidence at all. */
  function Reloaded(log: Log): Log {
    if NoEvidence(log) then log.(cursors := map[], archived := map[]) else FromDisk(log)
  }

  // ----- delivery as a protocol -------------------------------------------------------------

  /** The collector, the segments in flight, and, for each recipient and generation, everything that
      acknowledged segments brought it beyond what it had before. */
  datatype World = World(log: Log, flights: set<Flight>, received: map<(nat, nat), Bytes>)

  function Received(w: World, chat: nat, generation: nat): Bytes {
    if (chat, generation) in w.received then w.received[(chat, generation)] else []
  }

  function BytesOf(log: Log, generation: nat): Option<Bytes> {
    if generation == log.generation then Some(log.active) else ArchiveBytes(log.archives, generation)
  }

  function ArchiveBytes(archives: seq<Archive>, name: nat): (r: Option<Bytes>)
    ensures r.Some? ==> Archive(name, r.value) in archives
    ensures r.None? ==> forall a | a in archives :: a.name != name
  {
    if archives == [] then None
    else if archives[0].name == name then Some(archives[0].bytes)
    else ArchiveBytes(archives[1..], name)
  }

  /** Where the collector thinks recipient `chat` is in a generation. */
  function CursorIn(log: Log, chat: nat, generation: nat): nat {
    if generation == log.generation then At(log.cursors, chat) else ArchiveAt(log, generation, chat)
  }

  /** What an acknowledged segment adds beyond the cursor it advances. */
  function NewPart(f: Flight, cursor: nat): Bytes {
    if cursor < f.seg.start || f.seg.end <= cursor || |f.bytes| != f.seg.end - f.seg.start then []
    else f.bytes[cursor - f.seg.start..]
  }

  datatype Action =
    | Append(bytes: Bytes)
    | Rotate
    | Prune(name: nat)
    | WriteIndex
    | Prepare(chat: nat, limit: int)
    | Ack(flight: Flight)
    | Drop(flight: Flight)
    | Crash

  /** Rotation waits for segments of the active file; a segment in flight is acknowledged, or dropped
      because it could not be sent. */
  predicate Enabled(w: World, a: Action) {
    match a
    case Rotate => w.log.active != [] && forall f | f in w.flights :: f.seg.source != ActiveFile
    case Prune(name) => HasArchive(w.log, name)
    case Ack(f) => f in w.flights
    case Drop(f) => f in w.flights
    case _ => true
  }

  function Next(w: World, a: Action): World {
    match a
    case Append(bytes) => w.(log := Appended(w.log, bytes))
    case Rotate => w.(log := Rotated(w.log))
    case Prune(name) => w.(log := WithoutArchive(w.log, name))
    case WriteIndex => w.(log := Flush(w.log))
    case Prepare(chat, limit) =>
      var f := Prepared(w.log, chat, limit);
      if f.bytes == [] then w else w.(flights := w.flights + {f})
    case Ack(f) =>
      var log' := Acknowledged(w.log, f.chat, f.seg);
      var cursor := CursorIn(w.log, f.chat, f.generation);
      w.(log := log', flights := w.flights - {f},
         received := w.received[(f.chat, f.generation) :=
           Received(w, f.chat, f.generation) + NewPart(f, cursor)])
    case Drop(f) => w.(flights := w.flights - {f})
    case Crash => w.(log := Reloaded(w.log), flights := {})
  }

  // ----- the invariant ----------------------------------------------------------------------

  ghost predicate Ascending(archives: seq<Archive>) {
    forall i, j | 0 <= i < j < |archives| :: archives[i].name < archives[j].name
  }

  /** Archives are whole lines, named by distinct earlier generations. */
  ghost predicate ArchivesSound(log: Log) {
    && (forall a | a in log.archives :: a.name < log.generation && EndsLine(a.bytes))
    && Ascending(log.archives)
    && (forall name | name in log.archived :: name < log.generation)
    && (forall name | name in log.disk.archived :: name < log.generation)
  }

  /** In every retained generation, every cursor is a line boundary, everything below it was
      acknowledged, and the acknowledged segments concatenate to exactly that prefix. */
  ghost predicate CursorsTrue(w: World) {
    forall chat: nat, g: nat | BytesOf(w.log, g).Some? ::
      var f, c := BytesOf(w.log, g).value, CursorIn(w.log, chat, g);
      Boundary(f, c) && Received(w, chat, g) == f[..c]
  }

  /** A segment in flight is whole lines of its generation, starting no later than the cursor. */
  predicate FlightTrue(log: Log, f: Flight) {
    && (f.seg.source == if f.generation == log.generation then ActiveFile else ArchiveFile(f.generation))
    && f.generation <= log.generation
    && (BytesOf(log, f.generation).Some? ==>
          (var b := BytesOf(log, f.generation).value;
           && f.seg.start <= CursorIn(log, f.chat, f.generation)
           && f.seg.start < f.seg.end <= |b|
           && b[f.seg.start..f.seg.end] == f.bytes
           && b[f.seg.end - 1] == Newline()))
  }

  ghost predicate FlightsTrue(w: World) {
    forall f | f in w.flights :: FlightTrue(w.log, f)
  }

  function FromDisk(log: Log): Log {
    log.(cursors := log.disk.cursors, archived := log.disk.archived)
  }

  /** The index on disk has every cursor into a retained generation. */
  ghost predicate Flushed(log: Log) {
    forall chat: nat, g: nat | BytesOf(log, g).Some? :: CursorIn(FromDisk(log), chat, g) == CursorIn(log, chat, g)
  }

  ghost predicate Inv(w: World) {
    && ArchivesSound(w.log)
    && Flushed(w.log)
    && CursorsTrue(w)
    && FlightsTrue(w)
    && (forall k | k in w.received :: k.1 <= w.log.generation)
  }

  // ----- every action keeps it --------------------------------------------------------------

  lemma {:induction false} ArchiveBytesIs(archives: seq<Archive>, a: Archive)
    requires Ascending(archives) && a in archives
    ensures ArchiveBytes(archives, a.name) == Some(a.bytes)
  {
    if archives[0].name != a.name {
      ArchiveBytesIs(archives[1..], a);
    } else {
      var i :| 0 <= i < |archives| && archives[i] == a;
    }
  }

  lemma AppendKeeps(w: World, bytes: Bytes)
    requires Inv(w)
    ensures Inv(Next(w, Append(bytes)))
  {
    var w' := Next(w, Append(bytes));
    forall chat: nat, g: nat | BytesOf(w'.log, g).Some?
      ensures CursorIn(FromDisk(w'.log), chat, g) == CursorIn(w'.log, chat, g)
      ensures var f, c := BytesOf(w'.log, g).value, CursorIn(w'.log, chat, g); Boundary(f, c) && Received(w', chat, g) == f[..c]
    {
      assert BytesOf(w.log, g).Some?;
      var b, c := BytesOf(w.log, g).value, CursorIn(w.log, chat, g);
      assert Boundary(b, c) && Received(w, chat, g) == b[..c];
      assert CursorIn(FromDisk(w.log), chat, g) == c;
      if g == w.log.generation {
        assert (b + bytes)[..c] == b[..c];
      }
    }
    forall f | f in w'.flights ensures FlightTrue(w'.log, f) {
      assert FlightTrue(w.log, f);
      if f.generation == w.log.generation {
        assert (w.log.active + bytes)[f.seg.start..f.seg.end] == w.log.active[f.seg.start..f.seg.end];
      }
    }
  }

  lemma {:induction false} ArchiveBytesAppend(archives: seq<Archive>, a: Archive, name: nat)
    ensures ArchiveBytes(archives + [a], name)
         == if ArchiveBytes(archives, name).Some? then ArchiveBytes(archives, name)
            else if a.name == name then Some(a.bytes) else None
  {
    if archives != [] {
      assert (archives + [a])[1..] == archives[1..] + [a];
      ArchiveBytesAppend(archives[1..], a, name);
    }
  }

  /** The bytes of every older generation, and the cursors in it, before and after a rotation. */
  lemma RotateMoves(log: Log, chat: nat, g: nat)
    requires ArchivesSound(log)
    ensures var log' := Rotated(log);
      && BytesOf(log', g) ==
           (if g == log'.generation then Some([])
            else if g == log.generation then Some(Isolated(log.active)) else BytesOf(log, g))
      && CursorIn(log', chat, g) == if g == log'.generation then 0 else CursorIn(log, chat, g)
  {
    ArchiveBytesAppend(log.archives, Archive(log.generation, Isolated(log.active)), g);
  }

  lemma RotateKeepsArchives(log: Log)
    requires ArchivesSound(log) && log.active != []
    ensures ArchivesSound(Rotated(log)) && Flushed(Rotated(log))
  {
  }

  lemma RotateKeeps(w: World)
    requires Inv(w) && Enabled(w, Rotate)
    ensures Inv(Next(w, Rotate))
  {
    var w' := Next(w, Rotate);
    RotateKeepsArchives(w.log);
    hide ArchivesSound, Rotated, BytesOf, CursorIn;
    assert w'.log.generation == w.log.generation + 1 by { RotateMovesOn(w.log); }
    forall chat: nat, g: nat | BytesOf(w'.log, g).Some?
      ensures var f, c := BytesOf(w'.log, g).value, CursorIn(w'.log, chat, g); Boundary(f, c) && Received(w', chat, g) == f[..c]
    {
      RotateMoves(w.log, chat, g);
      if g == w.log.generation {
        CurrentBytes(w.log);
        var c := CursorIn(w.log, chat, g);
        assert Boundary(w.log.active, c) && Received(w, chat, g) == w.log.active[..c];
        assert Isolated(w.log.active)[..c] == w.log.active[..c];
      }
    }
    forall f | f in w'.flights ensures FlightTrue(w'.log, f) {
      assert FlightTrue(w.log, f);
      RotateMoves(w.log, f.chat, f.generation);
    }
    RotateKeepsArchives(w.log);
  }

  lemma CurrentBytes(log: Log)
    ensures BytesOf(log, log.generation) == Some(log.active)
  {
  }

  lemma RotateMovesOn(log: Log)
    ensures Rotated(log).generation == log.generation + 1
  {
  }

  lemma {:induction false} KeptBytes(archives: seq<Archive>, name: nat, g: nat)
    ensures ArchiveBytes(Kept(archives, name), g) == if g == name then None else ArchiveBytes(archives, g)
  {
    if archives != [] { KeptBytes(archives[1..], name, g); }
  }

  lemma ConsAscending(a: Archive, rest: seq<Archive>)
    requires Ascending(rest) && forall b | b in rest :: a.name < b.name
    ensures Ascending([a] + rest)
  {
  }

  lemma HeadBelow(archives: seq<Archive>)
    requires Ascending(archives) && archives != []
    ensures Ascending(archives[1..]) && forall b | b in archives[1..] :: archives[0].name < b.name
  {
    forall b | b in archives[1..] ensures archives[0].name < b.name {
      var k :| 0 <= k < |archives[1..]| && archives[1..][k] == b;
      assert archives[k + 1] == b;
    }
  }

  lemma {:induction false} KeptOrdered(archives: seq<Archive>, name: nat)
    requires Ascending(archives)
    ensures Ascending(Kept(archives, name))
  {
    hide Ascending;
    if archives != [] {
      HeadBelow(archives);
      KeptOrdered(archives[1..], name);
      if archives[0].name != name {
        ConsAscending(archives[0], Kept(archives[1..], name));
      }
    } else {
      assert Kept(archives, name) == archives;
    }
  }

  lemma PruneKeepsArchives(log: Log, name: nat)
    requires ArchivesSound(log)
    ensures ArchivesSound(WithoutArchive(log, name))
  {
    KeptOrdered(log.archives, name);
    hide Ascending, Kept;
  }

  lemma PruneMoves(log: Log, name: nat, chat: nat, g: nat)
    requires name < log.generation
    ensures var log' := WithoutArchive(log, name);
      && BytesOf(log', g) == (if g == name then None else BytesOf(log, g))
      && (g != name ==> CursorIn(log', chat, g) == CursorIn(log, chat, g))
      && CursorIn(FromDisk(log'), chat, g) == CursorIn(FromDisk(log), chat, g)
  {
    KeptBytes(log.archives, name, g);
    hide Kept;
  }

  lemma PruneKeeps(w: World, name: nat)
    requires Inv(w) && Enabled(w, Prune(name))
    ensures Inv(Next(w, Prune(name)))
  {
    var w' := Next(w, Prune(name));
    PruneKeepsArchives(w.log, name);
    assert name < w.log.generation && w'.log.generation == w.log.generation;
    hide ArchivesSound, WithoutArchive, BytesOf, CursorIn, FromDisk;
    forall chat: nat, g: nat | BytesOf(w'.log, g).Some?
      ensures CursorIn(FromDisk(w'.log), chat, g) == CursorIn(w'.log, chat, g)
      ensures var f, c := BytesOf(w'.log, g).value, CursorIn(w'.log, chat, g); Boundary(f, c) && Received(w', chat, g) == f[..c]
    {
      PruneMoves(w.log, name, chat, g);
      assert CursorIn(FromDisk(w.log), chat, g) == CursorIn(w.log, chat, g);
    }
    forall f | f in w'.flights ensures FlightTrue(w'.log, f) {
      assert FlightTrue(w.log, f);
      PruneMoves(w.log, name, f.chat, f.generation);
    }
  }

  lemma PreparedIsTrue(w: World, chat: nat, limit: int)
    requires Inv(w)
    ensures var f := Prepared(w.log, chat, limit);
      && f.chat == chat && BytesOf(w.log, f.generation).Some?
      && f.seg.source == (if f.generation == w.log.generation then ActiveFile else ArchiveFile(f.generation))
      && f.generation <= w.log.generation
      && f.seg.start == CursorIn(w.log, chat, f.generation)
      && var b := BytesOf(w.log, f.generation).value;
         && f.seg.start <= f.seg.end <= |b|
         && b[f.seg.start..f.seg.end] == f.bytes
         && (f.bytes != [] ==> b[f.seg.end - 1] == Newline())
  {
    hide Lagging, SegmentEnd, FlightsTrue, Flushed, Ascending;
    var lagging := Lagging(w.log, chat, 0);
    if lagging.Some? {
      var a := w.log.archives[lagging.value];
      ArchiveBytesIs(w.log.archives, a);
      assert BytesOf(w.log, a.name) == Some(a.bytes);
      assert Boundary(a.bytes, CursorIn(w.log, chat, a.name));
    } else {
      CurrentBytes(w.log);
      assert Boundary(w.log.active, CursorIn(w.log, chat, w.log.generation));
    }
  }

  lemma PreparedIsFlight(w: World, chat: nat, limit: int)
    requires Inv(w) && Prepared(w.log, chat, limit).bytes != []
    ensures FlightTrue(w.log, Prepared(w.log, chat, limit))
  {
    hide Prepared, Inv, BytesOf, CursorIn;
    PreparedIsTrue(w, chat, limit);
  }

  lemma PrepareKeeps(w: World, chat: nat, limit: int)
    requires Inv(w)
    ensures Inv(Next(w, Prepare(chat, limit)))
  {
    hide Prepared, ArchivesSound, BytesOf, CursorIn, FlightTrue, Flushed;
    var f := Prepared(w.log, chat, limit);
    if f.bytes != [] {
      PreparedIsFlight(w, chat, limit);
    }
  }

  lemma AckMovesActive(log: Log, to: nat, seg: Segment, chat: nat, g: nat)
    requires seg.source == ActiveFile
    ensures CursorIn(Acknowledged(log, to, seg), chat, g)
         == if chat == to && g == log.generation then Max(CursorIn(log, chat, g), seg.end) else CursorIn(log, chat, g)
  {
  }

  lemma AckMovesArchive(log: Log, to: nat, seg: Segment, chat: nat, g: nat)
    requires seg.source.ArchiveFile? && seg.source.name != log.generation && BytesOf(log, g).Some?
    ensures CursorIn(Acknowledged(log, to, seg), chat, g)
         == if chat == to && g == seg.source.name then Max(CursorIn(log, chat, g), seg.end) else CursorIn(log, chat, g)
  {
    if g != log.generation {
      var a := Archive(g, BytesOf(log, g).value);
      assert a in log.archives;
    }
  }

  lemma AckMoves(w: World, f: Flight, chat: nat, g: nat)
    requires Inv(w) && f in w.flights && BytesOf(w.log, g).Some?
    ensures CursorIn(Acknowledged(w.log, f.chat, f.seg), chat, g)
         == if chat == f.chat && g == f.generation then Max(CursorIn(w.log, chat, g), f.seg.end) else CursorIn(w.log, chat, g)
  {
    if f.seg.source == ActiveFile {
      AckMovesActive(w.log, f.chat, f.seg, chat, g);
    } else {
      AckMovesArchive(w.log, f.chat, f.seg, chat, g);
    }
    hide Acknowledged, CursorIn, CursorsTrue, ArchivesSound, Flushed;
  }

  lemma AckKeepsArchives(w: World, f: Flight)
    requires Inv(w) && f in w.flights
    ensures var log' := Acknowledged(w.log, f.chat, f.seg);
      && ArchivesSound(log') && Flushed(log')
      && log'.generation == w.log.generation
      && forall g: nat :: BytesOf(log', g) == BytesOf(w.log, g)
  {
    hide Ascending, CursorsTrue;
  }

  /** An acknowledged segment lands exactly at the end of what was received. */
  lemma AckExtends(b: Bytes, c: nat, f: Flight)
    requires Boundary(b, c) && f.seg.start <= c && f.seg.start < f.seg.end <= |b|
    requires f.bytes == b[f.seg.start..f.seg.end] && b[f.seg.end - 1] == Newline()
    ensures b[..c] + NewPart(f, c) == b[..Max(c, f.seg.end)]
    ensures Boundary(b, Max(c, f.seg.end))
  {
  }

  lemma AckTrueAt(w: World, f: Flight, chat: nat, g: nat)
    requires Inv(w) && Enabled(w, Ack(f)) && BytesOf(w.log, g).Some?
    ensures var w', b := Next(w, Ack(f)), BytesOf(w.log, g).value;
      var c := CursorIn(w'.log, chat, g);
      Boundary(b, c) && Received(w', chat, g) == b[..c]
  {
    assert FlightTrue(w.log, f);
    AckMoves(w, f, chat, g);
    var b, c := BytesOf(w.log, g).value, CursorIn(w.log, chat, g);
    assert Boundary(b, c) && Received(w, chat, g) == b[..c];
    hide Inv, BytesOf, CursorIn, Acknowledged, NewPart, Boundary;
    if chat == f.chat && g == f.generation {
      AckExtends(b, c, f);
    }
  }

  lemma AckKeepsCursors(w: World, f: Flight)
    requires Inv(w) && Enabled(w, Ack(f))
    ensures CursorsTrue(Next(w, Ack(f)))
  {
    var w' := Next(w, Ack(f));
    AckKeepsArchives(w, f);
    hide Inv, BytesOf, CursorIn, Acknowledged, Flushed, ArchivesSound, Received, Boundary, NewPart;
    forall chat: nat, g: nat | BytesOf(w'.log, g).Some?
      ensures var b, c := BytesOf(w'.log, g).value, CursorIn(w'.log, chat, g); Boundary(b, c) && Received(w', chat, g) == b[..c]
    {
      AckTrueAt(w, f, chat, g);
    }
  }

  lemma AckKeepsFlight(w: World, f: Flight, h: Flight)
    requires Inv(w) && Enabled(w, Ack(f)) && h in w.flights
    ensures FlightTrue(Next(w, Ack(f)).log, h)
  {
    AckKeepsArchives(w, f);
    assert FlightTrue(w.log, h);
    hide Inv, BytesOf, CursorIn, Acknowledged, Flushed, ArchivesSound;
    if BytesOf(w.log, h.generation).Some? {
      AckMoves(w, f, h.chat, h.generation);
    }
  }

  lemma AckKeeps(w: World, f: Flight)
    requires Inv(w) && Enabled(w, Ack(f))
    ensures Inv(Next(w, Ack(f)))
  {
    var w' := Next(w, Ack(f));
    AckKeepsArchives(w, f);
    AckKeepsCursors(w, f);
    AckNames(w, f);
    hide ArchivesSound, BytesOf, CursorIn, Acknowledged, Flushed, CursorsTrue, FlightTrue;
    forall h | h in w'.flights ensures FlightTrue(w'.log, h) {
      AckKeepsFlight(w, f, h);
    }
  }

  lemma AckNames(w: World, f: Flight)
    requires Inv(w) && f in w.flights
    ensures f.generation <= w.log.generation
  {
  }

  lemma CrashReloads(log: Log, chat: nat, g: nat)
    requires ArchivesSound(log) && Flushed(log) && BytesOf(log, g).Some?
    requires g == log.generation ==> Boundary(log.active, CursorIn(log, chat, g))
    ensures var log' := Reloaded(log);
      && BytesOf(log', g) == BytesOf(log, g)
      && CursorIn(log', chat, g) == CursorIn(log, chat, g)
      && CursorIn(FromDisk(log'), chat, g) == CursorIn(log', chat, g)
  {
    hide Ascending;
    assert CursorIn(FromDisk(log), chat, g) == CursorIn(log, chat, g);
    if NoEvidence(log) {
      forall a | a in log.archives ensures !(EndsLine(a.bytes)) {}
    }
  }

  lemma CrashKeeps(w: World)
    requires Inv(w)
    ensures Inv(Next(w, Crash))
  {
    var w' := Next(w, Crash);
    assert ArchivesSound(w'.log) by { hide Ascending; }
    hide ArchivesSound, Reloaded, FromDisk, CursorIn, BytesOf;
    forall chat: nat, g: nat | BytesOf(w'.log, g).Some?
      ensures CursorIn(FromDisk(w'.log), chat, g) == CursorIn(w'.log, chat, g)
      ensures var b, c := BytesOf(w'.log, g).value, CursorIn(w'.log, chat, g); Boundary(b, c) && Received(w', chat, g) == b[..c]
    {
      ReloadKeepsBytes(w.log, g);
      CurrentBytes(w.log);
      CrashReloads(w.log, chat, g);
    }
    ReloadKeepsBytes(w.log, 0);
  }

  lemma ReloadKeepsBytes(log: Log, g: nat)
    ensures BytesOf(Reloaded(log), g) == BytesOf(log, g) && Reloaded(log).generation == log.generation
  {
  }

  lemma FlushMoves(log: Log, chat: nat, g: nat)
    ensures var log' := Flush(log);
      && BytesOf(log', g) == BytesOf(log, g) && CursorIn(log', chat, g) == CursorIn(log, chat, g)
      && CursorIn(FromDisk(log'), chat, g) == CursorIn(log', chat, g)
  {
  }

  lemma WriteKeeps(w: World)
    requires Inv(w)
    ensures Inv(Next(w, WriteIndex))
  {
    var w' := Next(w, WriteIndex);
    assert ArchivesSound(w'.log) by { hide Ascending; }
    hide ArchivesSound, BytesOf, CursorIn, FromDisk;
    forall chat: nat, g: nat | BytesOf(w'.log, g).Some?
      ensures CursorIn(FromDisk(w'.log), chat, g) == CursorIn(w'.log, chat, g)
      ensures var f, c := BytesOf(w'.log, g).value, CursorIn(w'.log, chat, g); Boundary(f, c) && Received(w', chat, g) == f[..c]
    {
      FlushMoves(w.log, chat, g);
    }
    forall f | f in w'.flights ensures FlightTrue(w'.log, f) {
      assert FlightTrue(w.log, f);
      FlushMoves(w.log, f.chat, f.generation);
    }
  }

  /** What is no longer in flight is no longer answered. */
  lemma FewerFlights(w: World, flights: set<Flight>)
    requires Inv(w) && flights <= w.flights
    ensures Inv(w.(flights := flights))
  {
    var w' := w.(flights := flights);
    hide BytesOf, CursorIn, ArchivesSound, Flushed;
    forall chat: nat, g: nat | BytesOf(w'.log, g).Some?
      ensures var f, c := BytesOf(w'.log, g).value, CursorIn(w'.log, chat, g); Boundary(f, c) && Received(w', chat, g) == f[..c]
    {
    }
  }

  lemma StepKeeps(w: World, a: Action)
    requires Inv(w) && Enabled(w, a)
    ensures Inv(Next(w, a))
  {
    match a
    case Append(bytes) => AppendKeeps(w, bytes);
    case Rotate => RotateKeeps(w);
    case Prune(name) => PruneKeeps(w, name);
    case WriteIndex => WriteKeeps(w);
    case Prepare(chat, limit) => PrepareKeeps(w, chat, limit);
    case Ack(f) => AckKeeps(w, f);
    case Drop(f) => FewerFlights(w, w.flights - {f});
    case Crash => CrashKeeps(w);
  }
}
