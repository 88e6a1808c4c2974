/** Which bytes the next segment for a recipient holds, and what acknowledging and restarting do to every
    cursor. */
module EvidenceSegments {
  import opened Common
  import opened EvidenceFiles
  import opened EvidenceCursors

  // ----- where a segment ends ---------------------------------------------------------------

  /** A line that reaches beyond `start` ends at `at`. */
  predicate LineEndsAt(f: Bytes, start: nat, at: nat) {
    start < at <= |f| && f[at - 1] == Newline()
  }

  /** A segment of `limit` bytes goes to the first line end at or beyond that many bytes; where none is
      left, to the last line end there is. */
  ghost predicate IsSegment(f: Bytes, start: nat, limit: int, end: nat)
    requires start <= |f|
  {
    var stop := Min(start + Max(1, limit), |f|);
    if exists b: nat :: LineEndsAt(f, start, b) && b >= stop then
      LineEndsAt(f, start, end) && end >= stop && forall b: nat | LineEndsAt(f, start, b) && b >= stop :: end <= b
    else
      (end == start || LineEndsAt(f, start, end)) && forall b: nat | LineEndsAt(f, start, b) :: b <= end
  }

  lemma SegmentIs(f: Bytes, start: nat, limit: int)
    requires start <= |f|
    ensures IsSegment(f, start, limit, SegmentEnd(f, start, limit))
  {
    var stop := Min(start + Max(1, limit), |f|);
    var read := ReadEnd(f, start, limit);
    var end := SegmentEnd(f, start, limit);
    if start < read && f[read - 1] == Newline() {
      assert end == read;
      assert LineEndsAt(f, start, read);
      forall b: nat | LineEndsAt(f, start, b) && b >= stop ensures read <= b {
        FirstEnd(f, start, limit, b);
      }
    } else {
      assert read == |f|;
      forall b: nat | LineEndsAt(f, start, b) ensures b < stop {
        if b >= stop { FirstEnd(f, start, limit, b); }
      }
    }
  }

  lemma FirstEnd(f: Bytes, start: nat, limit: int, b: nat)
    requires start <= |f| && LineEndsAt(f, start, b) && b >= Min(start + Max(1, limit), |f|)
    ensures ReadEnd(f, start, limit) <= b
    ensures f[ReadEnd(f, start, limit) - 1] == Newline()
  {
    var stop := Min(start + Max(1, limit), |f|);
    if stop < |f| && f[stop - 1] != Newline() {
      var end := LineEnd(f, stop);
      assert b - 1 >= stop;
      if end < b { assert f[end - 1] == Newline(); }
    }
  }

  // ----- the next segment -------------------------------------------------------------------

  /** Where a recipient is in a file: at the cursor, or at its beginning if that lies beyond the file. */
  function Reached(cursor: nat, size: nat): nat {
    if cursor > size then 0 else cursor
  }

  function CursorOf(log: Log, name: nat, chat: nat): nat {
    if name in log.archived && chat in log.archived[name] then log.archived[name][chat] else 0
  }

  ghost predicate IsPart(f: Flight, bytes: Bytes, cursor: nat, limit: int) {
    && f.seg.start == Reached(cursor, |bytes|) && f.seg.start <= f.seg.end <= |bytes|
    && IsSegment(bytes, f.seg.start, limit, f.seg.end) && f.bytes == bytes[f.seg.start..f.seg.end]
  }

  /** The archive is read to its end. */
  predicate IsRead(log: Log, a: Archive, chat: nat) {
    Reached(CursorOf(log, a.name, chat), |a.bytes|) == |a.bytes|
  }

  /** The next segment is of the oldest archive the recipient has not read to its end, from where the
      recipient is in it, or else of the active file. */
  lemma PreparedIs(log: Log, chat: nat, limit: int)
    ensures var f := Prepared(log, chat, limit);
      && f.chat == chat
      && (forall i | 0 <= i < |log.archives| && !IsRead(log, log.archives[i], chat)
            && (forall j | 0 <= j < i :: IsRead(log, log.archives[j], chat)) ::
            var a := log.archives[i];
            f.seg.source == ArchiveFile(a.name) && IsPart(f, a.bytes, CursorOf(log, a.name, chat), limit))
      && ((forall a | a in log.archives :: IsRead(log, a, chat)) ==>
            f.seg.source == ActiveFile && IsPart(f, log.active, if chat in log.cursors then log.cursors[chat] else 0, limit))
  {
    hide IsSegment, IsRead, SegmentEnd, Lagging, StartIn, CursorOf, StartActive;
    var lagging := Lagging(log, chat, 0);
    forall a: Archive ensures StartIn(log, a, chat) == Reached(CursorOf(log, a.name, chat), |a.bytes|)
      ensures IsRead(log, a, chat) <==> StartIn(log, a, chat) >= |a.bytes|
    {
      ReadIff(log, a, chat);
    }
    if lagging.Some? {
      var a := log.archives[lagging.value];
      assert a in log.archives;
      SegmentIs(a.bytes, StartIn(log, a, chat), limit);
    } else {
      StartIsReached(log, chat);
      SegmentIs(log.active, StartActive(log, chat), limit);
    }
  }

  lemma ReadIff(log: Log, a: Archive, chat: nat)
    ensures StartIn(log, a, chat) == Reached(CursorOf(log, a.name, chat), |a.bytes|)
    ensures IsRead(log, a, chat) <==> StartIn(log, a, chat) >= |a.bytes|
  {
  }

  lemma StartIsReached(log: Log, chat: nat)
    ensures StartActive(log, chat) == Reached(if chat in log.cursors then log.cursors[chat] else 0, |log.active|)
  {
  }

  // ----- acknowledging and restarting ---------------------------------------------------------

  /** An acknowledgement moves the one cursor it names, never back, and only if its file is still there;
      then the index on disk has every cursor. */
  lemma AcknowledgedIs(log: Log, chat: nat, seg: Segment)
    ensures var r := Acknowledged(log, chat, seg);
      && r == log.(cursors := r.cursors, archived := r.archived, disk := Index(r.cursors, r.archived))
      && (forall c: nat :: At(r.cursors, c) ==
            if seg.source == ActiveFile && c == chat then Max(At(log.cursors, c), seg.end) else At(log.cursors, c))
      && (forall n: nat, c: nat :: CursorOf(r, n, c) ==
            if seg.source == ArchiveFile(n) && c == chat && exists a :: a in log.archives && a.name == n
            then Max(CursorOf(log, n, c), seg.end) else CursorOf(log, n, c))
  {
  }

  /** A restart finds the cursors as they were flushed; without any evidence it forgets them all. */
  lemma ReloadedIs(log: Log)
    ensures var r := Reloaded(log);
      if log.active == [] && forall a | a in log.archives :: a.bytes == [] then
        r == log.(cursors := map[], archived := map[])
      else r == log.(cursors := log.disk.cursors, archived := log.disk.archived)
  {
  }

  /** A rotation isolates the file, keeps its cursors under its name, and starts every recipient at the
      beginning of the next one. */
  lemma RotatedIs(log: Log)
    ensures var r := Rotated(log);
      && r.active == [] && r.generation == log.generation + 1
      && r.archives == log.archives + [Archive(log.generation,
           if log.active == [] || log.active[|log.active| - 1] == 10 then log.active else log.active + [10])]
      && (forall c: nat :: At(r.cursors, c) == 0)
      && (forall n: nat, c: nat :: CursorOf(r, n, c) == if n == log.generation then At(log.cursors, c) else CursorOf(log, n, c))
      && r.disk == Index(r.cursors, r.archived)
  {
  }
}
