/** Delivery over whole runs: nothing acknowledged is lost, nothing is silently skipped - and the two
    runs in which something is. */
module EvidenceDelivery {
  import opened Common
  import opened EvidenceFiles
  import opened EvidenceCursors

  ghost predicate IsRun(run: seq<World>, acts: seq<Action>) {
    && |run| == |acts| + 1
    && Inv(run[0])
    && forall i | 0 <= i < |acts| :: Enabled(run[i], acts[i]) && run[i + 1] == Next(run[i], acts[i])
  }

  /** A collector with no archives and no recipients is a start. */
  lemma FreshStart(active: Bytes, generation: nat)
    ensures Inv(World(Log(active, generation, [], map[], map[], Index(map[], map[])), {}, map[]))
  {
  }

  lemma {:induction false} RunKeeps(run: seq<World>, acts: seq<Action>, i: nat)
    requires IsRun(run, acts) && i < |run|
    ensures Inv(run[i])
  {
    hide Inv, Enabled, Next;
    if i > 0 {
      RunKeeps(run, acts, i - 1);
      StepKeeps(run[i - 1], acts[i - 1]);
    }
  }

  // ----- forward only -----------------------------------------------------------------------

  /** A generation that is gone stays gone; one that stays only grows, and its cursors with it. */
  predicate Grows(a: Log, b: Log, chat: nat, g: nat) {
    g <= a.generation && BytesOf(b, g).Some? ==>
      (&& BytesOf(a, g).Some?
       && BytesOf(a, g).value <= BytesOf(b, g).value
       && CursorIn(a, chat, g) <= CursorIn(b, chat, g))
  }

  ghost predicate Forward(a: Log, b: Log) {
    a.generation <= b.generation && forall chat: nat, g: nat :: Grows(a, b, chat, g)
  }

  lemma ForwardTransitive(a: Log, b: Log, c: Log)
    requires Forward(a, b) && Forward(b, c)
    ensures Forward(a, c)
  {
    hide BytesOf, CursorIn;
    forall chat: nat, g: nat ensures Grows(a, c, chat, g) {
      assert Grows(a, b, chat, g) && Grows(b, c, chat, g);
    }
  }

  lemma SameForward(a: Log)
    ensures Forward(a, a)
  {
  }

  lemma AppendForward(log: Log, bytes: Bytes)
    ensures Forward(log, Appended(log, bytes))
  {
    assert log.active <= log.active + bytes;
  }

  lemma RotateForward(log: Log)
    requires ArchivesSound(log)
    ensures Forward(log, Rotated(log))
  {
    RotateMovesOn(log);
    CurrentBytes(log);
    assert log.active <= Isolated(log.active);
    forall chat: nat, g: nat ensures Grows(log, Rotated(log), chat, g) {
      RotateMoves(log, chat, g);
      hide BytesOf, CursorIn, Rotated, Isolated;
    }
  }

  lemma PruneForward(log: Log, name: nat)
    requires name < log.generation
    ensures Forward(log, WithoutArchive(log, name))
  {
    forall chat: nat, g: nat ensures Grows(log, WithoutArchive(log, name), chat, g) {
      PruneMoves(log, name, chat, g);
      hide BytesOf, CursorIn;
    }
  }

  lemma FlushForward(log: Log)
    ensures Forward(log, Flush(log))
  {
    forall chat: nat, g: nat ensures Grows(log, Flush(log), chat, g) {
      FlushMoves(log, chat, g);
      hide BytesOf, CursorIn;
    }
  }

  lemma AckForward(w: World, f: Flight)
    requires Inv(w) && f in w.flights
    ensures Forward(w.log, Acknowledged(w.log, f.chat, f.seg))
  {
    AckKeepsArchives(w, f);
    forall chat: nat, g: nat ensures Grows(w.log, Acknowledged(w.log, f.chat, f.seg), chat, g) {
      if BytesOf(w.log, g).Some? { AckMoves(w, f, chat, g); }
      hide Inv, BytesOf, CursorIn, Acknowledged, ArchivesSound, Flushed;
    }
  }

  lemma CrashForward(w: World)
    requires Inv(w)
    ensures Forward(w.log, Reloaded(w.log))
  {
    var b := Reloaded(w.log);
    CurrentBytes(w.log);
    forall chat: nat, g: nat ensures Grows(w.log, b, chat, g) {
      ReloadKeepsBytes(w.log, g);
      if BytesOf(w.log, g).Some? {
        assert Boundary(BytesOf(w.log, g).value, CursorIn(w.log, chat, g));
        CrashReloads(w.log, chat, g);
      }
      hide BytesOf, CursorIn, Reloaded, Inv;
    }
    assert b.generation == w.log.generation;
  }

  lemma StepForward(w: World, a: Action)
    requires Inv(w) && Enabled(w, a)
    ensures Forward(w.log, Next(w, a).log)
  {
    SameForward(w.log);
    hide Forward;
    match a
    case Append(bytes) => AppendForward(w.log, bytes);
    case Rotate => RotateForward(w.log);
    case Prune(name) => PruneForward(w.log, name);
    case WriteIndex => FlushForward(w.log);
    case Prepare(chat, limit) => {}
    case Ack(f) => AckForward(w, f);
    case Drop(f) => {}
    case Crash => CrashForward(w);
  }

  /** For every run and recipient, in every generation still retained: the cursor is a line boundary
      of the file, the segments acknowledged so far concatenate to exactly the bytes below it, and
      since any earlier moment neither the bytes nor the cursor moved back. */
  lemma {:induction false} DeliveryIsPrefix(run: seq<World>, acts: seq<Action>, i: nat, j: nat, chat: nat, g: nat)
    requires IsRun(run, acts) && i <= j < |run| && BytesOf(run[j].log, g).Some?
    ensures var b, c := BytesOf(run[j].log, g).value, CursorIn(run[j].log, chat, g);
      Boundary(b, c) && Received(run[j], chat, g) == b[..c]
    ensures g <= run[i].log.generation ==>
      && BytesOf(run[i].log, g).Some?
      && BytesOf(run[i].log, g).value <= BytesOf(run[j].log, g).value
      && CursorIn(run[i].log, chat, g) <= CursorIn(run[j].log, chat, g)
      && Received(run[i], chat, g) <= Received(run[j], chat, g)
  {
    RunKeeps(run, acts, j);
    RunKeeps(run, acts, i);
    RunForward(run, acts, i, j);
    assert Grows(run[i].log, run[j].log, chat, g);
    hide IsRun, ArchivesSound, Flushed, FlightsTrue, BytesOf, CursorIn;
    if g <= run[i].log.generation {
      var b, c := BytesOf(run[i].log, g).value, CursorIn(run[i].log, chat, g);
      assert Boundary(b, c) && Received(run[i], chat, g) == b[..c];
    }
  }

  lemma {:induction false} RunForward(run: seq<World>, acts: seq<Action>, i: nat, j: nat)
    requires IsRun(run, acts) && i <= j < |run|
    ensures Forward(run[i].log, run[j].log)
    decreases j
  {
    hide Forward, Inv, Enabled, Next;
    if i < j {
      RunForward(run, acts, i, j - 1);
      RunKeeps(run, acts, j - 1);
      StepForward(run[j - 1], acts[j - 1]);
      ForwardTransitive(run[i].log, run[j - 1].log, run[j].log);
    } else {
      SameForward(run[i].log);
    }
  }

  // ----- nothing is withheld ----------------------------------------------------------------

  /** Every complete line of every retained generation is below this recipient's cursor. */
  ghost predicate CaughtUp(log: Log, chat: nat) {
    && (forall a | a in log.archives :: CursorIn(log, chat, a.name) == |a.bytes|)
    && (forall i | CursorIn(log, chat, log.generation) <= i < |log.active| :: log.active[i] != Newline())
  }

  /** A retained archive that a recipient has not finished always yields a segment, taken from the
      oldest such archive and starting at the recipient's cursor. */
  lemma LaggingArchiveYields(w: World, chat: nat, limit: int, a: Archive)
    requires Inv(w) && a in w.log.archives && CursorIn(w.log, chat, a.name) < |a.bytes|
    ensures var f := Prepared(w.log, chat, limit);
      && f.bytes != [] && f.seg.source.ArchiveFile? && f.seg.source.name <= a.name
      && f.seg.start == CursorIn(w.log, chat, f.generation)
  {
    PreparedIsTrue(w, chat, limit);
    var k :| 0 <= k < |w.log.archives| && w.log.archives[k] == a;
    var lagging := Lagging(w.log, chat, 0);
    assert StartIn(w.log, a, chat) == CursorIn(w.log, chat, a.name);
    assert lagging.Some? && lagging.value <= k;
    var b := w.log.archives[lagging.value];
    assert b in w.log.archives && EndsLine(b.bytes);
  }

  lemma NothingLagging(w: World, chat: nat)
    requires Inv(w) && Lagging(w.log, chat, 0).None?
    ensures forall a | a in w.log.archives :: CursorIn(w.log, chat, a.name) == |a.bytes|
  {
    forall a | a in w.log.archives ensures CursorIn(w.log, chat, a.name) == |a.bytes| {
      var k :| 0 <= k < |w.log.archives| && w.log.archives[k] == a;
      ArchiveBytesIs(w.log.archives, a);
      assert Boundary(a.bytes, CursorIn(w.log, chat, a.name));
    }
  }

  /** The collector has nothing to send exactly when the recipient has every complete line. */
  lemma NothingToSendIsCaughtUp(w: World, chat: nat, limit: int)
    requires Inv(w)
    ensures Prepared(w.log, chat, limit).bytes == [] <==> CaughtUp(w.log, chat)
  {
    var f := Prepared(w.log, chat, limit);
    if Lagging(w.log, chat, 0).Some? {
      var a := w.log.archives[Lagging(w.log, chat, 0).value];
      assert StartIn(w.log, a, chat) == CursorIn(w.log, chat, a.name) by {
        ArchiveBytesIs(w.log.archives, a);
        assert Boundary(a.bytes, CursorIn(w.log, chat, a.name));
      }
      LaggingArchiveYields(w, chat, limit, a);
    } else {
      NothingLagging(w, chat);
      CurrentBytes(w.log);
      assert Boundary(w.log.active, CursorIn(w.log, chat, w.log.generation));
      EmptySegment(w.log.active, StartActive(w.log, chat), limit);
    }
  }

  // ----- the two runs that skip -------------------------------------------------------------

  /** A rotation with segments in flight, records appended since, and one of the segments acknowledged. */
  function AckedLate(w: World, bytes: Bytes, f: Flight): World {
    Next(Next(Next(w, Rotate), Append(bytes)), Ack(f))
  }

  /** A segment of the active file acknowledged after a rotation: the acknowledgement names the new
      active file, whose cursor jumps over bytes that nobody has sent. */
  lemma AckAfterRotationSkips(w: World, f: Flight, bytes: Bytes)
    requires Inv(w) && f in w.flights && f.seg.source == ActiveFile
    ensures var w' := AckedLate(w, bytes, f);
      && w'.log.active == bytes
      && Received(w', f.chat, w'.log.generation) == []
      && CursorIn(w'.log, f.chat, w'.log.generation) == f.seg.end > 0
      && (f.seg.end <= |bytes| ==> StartActive(w'.log, f.chat) == f.seg.end)
  {
    RotateMovesOn(w.log);
    assert FlightTrue(w.log, f);
    CurrentBytes(w.log);
    hide Flushed, CursorsTrue, ArchivesSound;
    var k := (f.chat, w.log.generation + 1);
    assert k !in w.received;
  }

  /** A segment of an archive is answered by name, however many rotations came between. */
  lemma ArchiveAckIsTrue(w: World, f: Flight, bytes: Bytes)
    requires Inv(w) && f in w.flights && f.seg.source != ActiveFile && w.log.active != []
    ensures CursorsTrue(AckedLate(w, bytes, f))
  {
    hide Inv, Rotated, Acknowledged, Appended, CursorsTrue;
    var alone := w.(flights := {f});
    FewerFlights(w, {f});
    RotateKeeps(alone);
    AppendKeeps(Next(alone, Rotate), bytes);
    var late := Next(Next(alone, Rotate), Append(bytes));
    AckKeeps(late, f);
    InvIsTrue(Next(late, Ack(f)));
    SameCursors(Next(late, Ack(f)), AckedLate(w, bytes, f));
  }

  lemma InvIsTrue(w: World)
    requires Inv(w)
    ensures CursorsTrue(w)
  {
  }

  lemma SameCursors(a: World, b: World)
    requires a.log == b.log && a.received == b.received && CursorsTrue(a)
    ensures CursorsTrue(b)
  {
    hide BytesOf, CursorIn;
    forall chat: nat, g: nat | BytesOf(b.log, g).Some?
      ensures var f, c := BytesOf(b.log, g).value, CursorIn(b.log, chat, g); Boundary(f, c) && Received(b, chat, g) == f[..c]
    {
    }
  }

  /** After a rotation that did not wait, acknowledging a segment keeps the cursors true exactly when
      it was not read from the file that was rotated. */
  lemma AckAfterRotationIsTrueIff(w: World, f: Flight, bytes: Bytes)
    requires Inv(w) && f in w.flights && w.log.active != []
    ensures CursorsTrue(AckedLate(w, bytes, f)) <==> f.seg.source != ActiveFile
  {
    var w' := AckedLate(w, bytes, f);
    if f.seg.source != ActiveFile {
      ArchiveAckIsTrue(w, f, bytes);
    } else {
      AckAfterRotationSkips(w, f, bytes);
      hide Inv, AckedLate, CursorIn;
      CurrentBytes(w'.log);
      var c := CursorIn(w'.log, f.chat, w'.log.generation);
      assert !(Boundary(bytes, c) && Received(w', f.chat, w'.log.generation) == bytes[..c]);
    }
  }

  /** The files of a rotation that crashed between the rename and the flush, after the restart. */
  function CrashedRotation(log: Log): Log {
    Reloaded(Renamed(log))
  }

  lemma CrashedRotationCursors(log: Log, chat: nat, g: nat)
    requires ArchivesSound(log) && Flushed(log) && log.active != []
    ensures var log' := CrashedRotation(log);
      && log'.active == [] && log'.generation == log.generation + 1
      && BytesOf(log', g) == BytesOf(Rotated(log), g)
      && CursorIn(log', chat, log'.generation) == CursorIn(log, chat, log.generation)
      && CursorIn(log', chat, log.generation) == 0
      && (g < log.generation && BytesOf(log, g).Some? ==> CursorIn(log', chat, g) == CursorIn(log, chat, g))
  {
    var log' := Renamed(log);
    var a := Archive(log.generation, Isolated(log.active));
    assert log'.archives[|log.archives|] == a && a in log'.archives;
    assert !NoEvidence(log');
    CurrentBytes(log);
    assert CursorIn(FromDisk(log), chat, log.generation) == CursorIn(log, chat, log.generation);
    if BytesOf(log, g).Some? {
      assert CursorIn(FromDisk(log), chat, g) == CursorIn(log, chat, g);
    }
    hide ArchiveBytes;
  }

  /** A crash between the rename and the flush keeps the cursors true exactly when no recipient had
      acknowledged anything of the file that was rotated. */
  lemma CrashedRotationIsTrueIff(w: World)
    requires Inv(w) && w.log.active != []
    ensures CursorsTrue(World(CrashedRotation(w.log), {}, w.received))
       <==> forall chat: nat :: CursorIn(w.log, chat, w.log.generation) == 0
  {
    var w' := World(CrashedRotation(w.log), {}, w.received);
    var g0 := w.log.generation;
    CrashedRotationCursors(w.log, 0, 0);
    CurrentBytes(w.log);
    CurrentBytes(w'.log);
    hide CrashedRotation, BytesOf, CursorIn, Flushed, ArchivesSound, FlightsTrue;
    if forall chat: nat :: CursorIn(w.log, chat, g0) == 0 {
      forall chat: nat, g: nat | BytesOf(w'.log, g).Some?
        ensures var b, c := BytesOf(w'.log, g).value, CursorIn(w'.log, chat, g); Boundary(b, c) && Received(w', chat, g) == b[..c]
      {
        CrashedRotationCursors(w.log, chat, g);
        CrashedBytes(w.log, g);
        if g == g0 + 1 {
          assert (chat, g) !in w.received;
        } else {
          assert BytesOf(w.log, g).Some?;
          var b, c := BytesOf(w.log, g).value, CursorIn(w.log, chat, g);
          assert Boundary(b, c) && Received(w, chat, g) == b[..c];
        }
      }
    }
    if CursorsTrue(w') {
      forall chat: nat ensures CursorIn(w.log, chat, g0) == 0 {
        CrashedRotationCursors(w.log, chat, g0);
        assert Boundary([], CursorIn(w'.log, chat, g0 + 1));
      }
    }
  }

  lemma CrashedBytes(log: Log, g: nat)
    requires ArchivesSound(log) && Flushed(log) && log.active != []
    ensures var log' := CrashedRotation(log);
      && (BytesOf(log', g).Some? ==> g <= log.generation + 1)
      && (g < log.generation ==> BytesOf(log', g) == BytesOf(log, g))
      && (g == log.generation ==> BytesOf(log', g) == Some(Isolated(log.active)))
  {
    CrashedRotationCursors(log, 0, g);
    RotateMoves(log, 0, g);
    RotateMovesOn(log);
    hide CrashedRotation, Rotated, Flushed;
    if BytesOf(log, g).Some? && g != log.generation {
      assert Archive(g, BytesOf(log, g).value) in log.archives;
    }
  }

  /** In the other case, whatever is appended next is skipped up to the old cursor. */
  lemma CrashedRotationSkips(w: World, chat: nat, bytes: Bytes)
    requires Inv(w) && w.log.active != [] && CursorIn(w.log, chat, w.log.generation) <= |bytes|
    ensures var log := Appended(CrashedRotation(w.log), bytes);
      && log.active == bytes
      && Received(w, chat, log.generation) == []
      && StartActive(log, chat) == CursorIn(w.log, chat, w.log.generation)
  {
    CrashedRotationCursors(w.log, chat, 0);
    hide CrashedRotation, Flushed, CursorsTrue, FlightsTrue, ArchivesSound;
    assert (chat, w.log.generation + 1) !in w.received;
  }
}
