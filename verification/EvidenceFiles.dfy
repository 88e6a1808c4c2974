/** Newline-framed evidence files: bytes, line boundaries, and the next whole-line segment. */
module EvidenceFiles {
  import opened Common

  type Byte = b: int | 0 <= b < 256
  type Bytes = seq<Byte>

  function Newline(): Byte { 10 }

  predicate EndsLine(f: Bytes) {
    f != [] && f[|f| - 1] == Newline()
  }

  /** Nothing, or just after a newline. */
  predicate Boundary(f: Bytes, at: nat) {
    at <= |f| && (at == 0 || f[at - 1] == Newline())
  }

  /** A newline that isolates what a crash left of the last line. */
  function Isolated(f: Bytes): Bytes {
    if f == [] || EndsLine(f) then f else f + [Newline()]
  }

  /** The end of the line that contains position `from`, or the end of the file. */
  function LineEnd(f: Bytes, from: nat): (end: nat)
    requires from <= |f|
    ensures from <= end <= |f|
    ensures forall i | from <= i < end - 1 :: f[i] != Newline()
    ensures end < |f| ==> from < end && f[end - 1] == Newline()
    ensures from < |f| ==> from < end
    ensures end == |f| && from < |f| && EndsLine(f) ==> f[end - 1] == Newline()
    decreases |f| - from
  {
    if from == |f| then from
    else if f[from] == Newline() then from + 1
    else LineEnd(f, from + 1)
  }

  /** One read of at most `limit` bytes, carried on to the end of its line. */
  function ReadEnd(f: Bytes, start: nat, limit: int): (end: nat)
    requires start <= |f|
    ensures start <= end <= |f|
    ensures start < |f| ==> start < end
    ensures start < end < |f| ==> f[end - 1] == Newline()
  {
    var end := Min(start + Max(1, limit), |f|);
    if end < |f| && f[end - 1] != Newline() then LineEnd(f, end) else end
  }

  /** Just after the last newline between `start` and `end`, or `start`. */
  function LastBreak(f: Bytes, start: nat, end: nat): (at: nat)
    requires start <= end <= |f|
    ensures start <= at <= end
    ensures at > start ==> f[at - 1] == Newline()
    ensures forall i | at <= i < end :: f[i] != Newline()
    decreases end
  {
    if end == start then start
    else if f[end - 1] == Newline() then end
    else LastBreak(f, start, end - 1)
  }

  /** The end of the next whole-line segment from `start`; `start` itself when no line is complete. */
  function SegmentEnd(f: Bytes, start: nat, limit: int): (end: nat)
    requires start <= |f|
    ensures start <= end <= |f|
    ensures end > start ==> f[end - 1] == Newline()
    ensures EndsLine(f) && start < |f| ==> end > start
  {
    LastBreak(f, start, ReadEnd(f, start, limit))
  }

  /** A segment is empty exactly when everything that is left is one unfinished line. */
  lemma EmptySegment(f: Bytes, start: nat, limit: int)
    requires start <= |f|
    ensures SegmentEnd(f, start, limit) == start <==> forall i | start <= i < |f| :: f[i] != Newline()
  {
    var end := ReadEnd(f, start, limit);
    if start < end && end < |f| {
      assert f[end - 1] == Newline();
    }
  }
}
