/** Byte limits: what one append may do to the active file, and what pruning keeps. */
module EvidenceStorage {
  import opened Common
  import opened Text
  import opened EvidenceFiles
  import opened EvidenceCursors

  // ----- one record -------------------------------------------------------------------------

  /** ASCII text as bytes. */
  function Ascii(s: string): (b: Bytes)
    ensures |b| == |s|
  {
    seq(|s|, i requires 0 <= i < |s| => if s[i] as int < 256 then s[i] as int else 63)
  }

  /** A SHA-256 digest in hexadecimal. */
  predicate Digest(b: Bytes) {
    |b| == 64
  }

  /** The integrity member that is added to a record's canonical JSON object. */
  function Envelope(previous: Option<Bytes>, sha: Bytes): Bytes {
    Ascii("\"integrity\":{\"previous_record_sha256\":")
    + (if previous.Some? then Ascii("\"") + previous.value + Ascii("\"") else Ascii("null"))
    + Ascii(",\"record_sha256\":\"") + sha + Ascii("\"},")
  }

  /** The line of a record whose canonical JSON is `before + after`. */
  function Encoded(before: Bytes, after: Bytes, previous: Option<Bytes>, sha: Bytes): Bytes {
    before + Envelope(previous, sha) + after + [Newline()]
  }

  /** A record's canonical JSON once its predecessor is known and before its own hash is. */
  function Canonical(before: Bytes, after: Bytes, previous: Option<Bytes>): Bytes {
    before + Ascii("\"integrity\":{\"previous_record_sha256\":")
    + (if previous.Some? then Ascii("\"") + previous.value + Ascii("\"") else Ascii("null")) + Ascii("},") + after
  }

  function Predecessor(sha: Bytes): Option<Bytes> {
    if sha == [] then None else Some(sha)
  }

  /** A record names the hash before it, and the first one names none. */
  lemma PredecessorIsNamed(before: Bytes, after: Bytes, sha: Bytes)
    ensures Canonical(before, after, Predecessor(sha)) ==
      before + Ascii("\"integrity\":{\"previous_record_sha256\":")
      + (if sha == [] then Ascii("null") else Ascii("\"") + sha + Ascii("\"")) + Ascii("},") + after
  {
    hide Ascii;
  }

  /** Taking its hash out of a line gives back the bytes that were hashed, so anyone can check it. */
  lemma LineHoldsWhatWasHashed(before: Bytes, after: Bytes, previous: Option<Bytes>, sha: Bytes)
    ensures var line, hashed := Encoded(before, after, previous, sha), Canonical(before, after, previous);
      var hash := Ascii(",\"record_sha256\":\"") + sha + Ascii("\"");
      var n := |hashed| - |after| - 2;
      && 0 <= n && n + |hash| <= |line|
      && line[..n] + line[n + |hash|..] == hashed + [Newline()] && line[n..n + |hash|] == hash
  {
    var head := before + Ascii("\"integrity\":{\"previous_record_sha256\":")
      + (if previous.Some? then Ascii("\"") + previous.value + Ascii("\"") else Ascii("null"));
    var hash := Ascii(",\"record_sha256\":\"") + sha + Ascii("\"");
    var tail := Ascii("},") + after + [Newline()];
    LineParts(before, after, previous, sha);
    hide Encoded, Canonical, Ascii, Envelope;
    Cut(head, hash, tail);
    assert |tail| == |after| + 3 by { EndsApart(); }
  }

  lemma LineParts(before: Bytes, after: Bytes, previous: Option<Bytes>, sha: Bytes)
    ensures var head := before + Ascii("\"integrity\":{\"previous_record_sha256\":")
      + (if previous.Some? then Ascii("\"") + previous.value + Ascii("\"") else Ascii("null"));
      var hash, tail := Ascii(",\"record_sha256\":\"") + sha + Ascii("\""), Ascii("},") + after + [Newline()];
      && Encoded(before, after, previous, sha) == head + hash + tail
      && Canonical(before, after, previous) + [Newline()] == head + tail
  {
    EndsApart();
    hide Ascii;
    var a, b, c := Ascii("\"integrity\":{\"previous_record_sha256\":"),
      (if previous.Some? then Ascii("\"") + previous.value + Ascii("\"") else Ascii("null")), Ascii(",\"record_sha256\":\"");
    var q, e := Ascii("\""), Ascii("},");
    assert a + b + c + sha + (q + e) == a + b + (c + sha + q) + e;
    Regroup(before, a + b, c + sha + q, e, after + [Newline()]);
    assert e + after + [Newline()] == e + (after + [Newline()]);
  }

  lemma Regroup(before: Bytes, a: Bytes, b: Bytes, c: Bytes, d: Bytes)
    ensures before + (a + b + c) + d == (before + a) + b + (c + d)
  {
  }

  lemma Cut(head: Bytes, hash: Bytes, tail: Bytes)
    ensures var line, n := head + hash + tail, |head|;
      line[..n] + line[n + |hash|..] == head + tail && line[n..n + |hash|] == hash
  {
    var line := head + hash + tail;
    assert line[..|head|] == head && line[|head| + |hash|..] == tail;
  }

  lemma EndsApart()
    ensures Ascii("\"},") == Ascii("\"") + Ascii("},") && |Ascii("},")| == 2
  {
  }

  /** What was estimated for the record before its predecessor was known. */
  function Estimate(before: Bytes, after: Bytes): nat {
    |before + after| + 256
  }

  predicate RotatesFor(active: Bytes, incoming: nat, limit: nat) {
    |active| > 0 && |active| + incoming > limit
  }

  /** The active file after one append. */
  function AfterAppend(active: Bytes, before: Bytes, after: Bytes, previous: Option<Bytes>, sha: Bytes, limit: nat): Bytes {
    var current := if RotatesFor(active, Estimate(before, after), limit) then [] else active;
    Isolated(current) + Encoded(before, after, previous, sha)
  }

  /** The envelope, the line's own newline and an isolating newline fit in the allowance. */
  lemma EnvelopeFits(before: Bytes, after: Bytes, previous: Option<Bytes>, sha: Bytes)
    requires Digest(sha) && (previous.Some? ==> Digest(previous.value))
    ensures |Encoded(before, after, previous, sha)| + 1 <= Estimate(before, after)
  {
    var e := Envelope(previous, sha);
    assert |e| <= 38 + 66 + 18 + 64 + 3;
  }

  /** After every append the active file is within its limit, or holds only the record just written. */
  lemma AppendKeepsLimit(active: Bytes, before: Bytes, after: Bytes, previous: Option<Bytes>, sha: Bytes, limit: nat)
    requires Digest(sha) && (previous.Some? ==> Digest(previous.value))
    ensures var f := AfterAppend(active, before, after, previous, sha, limit);
      |f| <= limit || f == Encoded(before, after, previous, sha)
  {
    EnvelopeFits(before, after, previous, sha);
    hide Encoded;
    if active == [] || RotatesFor(active, Estimate(before, after), limit) {
      assert [] + Encoded(before, after, previous, sha) == Encoded(before, after, previous, sha);
    }
  }

  /** An append starts a fresh file exactly when there is one and the estimate would exceed the limit. */
  lemma AppendGoes(active: Bytes, before: Bytes, after: Bytes, previous: Option<Bytes>, sha: Bytes, limit: nat)
    ensures var line := Encoded(before, after, previous, sha);
      AfterAppend(active, before, after, previous, sha, limit)
      == if active == [] || |active| + |before| + |after| + 256 > limit then line
         else if active[|active| - 1] == 10 then active + line
         else active + [10] + line
  {
    hide Encoded;
    assert [] + Encoded(before, after, previous, sha) == Encoded(before, after, previous, sha);
  }

  // ----- retention --------------------------------------------------------------------------

  function Total(files: seq<Archive>): nat {
    if files == [] then 0 else |files[0].bytes| + Total(files[1..])
  }

  /** Older than the cutoff, by the file's own modification time. */
  predicate Expired(a: Archive, stamps: map<nat, int>, cutoff: Option<int>) {
    cutoff.Some? && a.name in stamps && stamps[a.name] < cutoff.value
  }

  /** The archives that survive the age pass. */
  function Young(files: seq<Archive>, stamps: map<nat, int>, cutoff: Option<int>): seq<Archive> {
    if files == [] then []
    else if Expired(files[0], stamps, cutoff) then Young(files[1..], stamps, cutoff)
    else [files[0]] + Young(files[1..], stamps, cutoff)
  }

  /** The archives that survive the size pass: the oldest go first, until the rest fits. */
  function Fitting(files: seq<Archive>, limit: nat): seq<Archive> {
    if files == [] || Total(files) <= limit then files else Fitting(files[1..], limit)
  }

  /** Where the size pass stops. */
  function KeptFrom(files: seq<Archive>, limit: nat): (k: nat)
    ensures k <= |files|
  {
    if files == [] || Total(files) <= limit then 0 else 1 + KeptFrom(files[1..], limit)
  }

  lemma {:induction false} TotalShrinks(files: seq<Archive>, k: nat)
    requires k <= |files|
    ensures Total(files[k..]) <= Total(files)
    decreases k
  {
    if k == 0 {
      assert files[0..] == files;
    } else {
      TotalShrinks(files[1..], k - 1);
      assert files[1..][k - 1..] == files[k..];
    }
  }

  /** The survivors are the longest newest-first run whose total fits: they fit, and no longer run
      does. */
  lemma {:induction false} FittingIsLongest(files: seq<Archive>, limit: nat)
    ensures Fitting(files, limit) == files[KeptFrom(files, limit)..]
    ensures Total(Fitting(files, limit)) <= limit
    ensures forall k | 0 <= k < KeptFrom(files, limit) :: Total(files[k..]) > limit
  {
    if files == [] {
    } else if Total(files) <= limit {
      assert files[0..] == files;
    } else {
      FittingIsLongest(files[1..], limit);
      var c := KeptFrom(files[1..], limit);
      assert files[1..][c..] == files[c + 1..];
      forall k | 0 <= k < c + 1 ensures Total(files[k..]) > limit {
        if k == 0 {
          assert files[0..] == files;
        } else {
          assert files[1..][k - 1..] == files[k..];
        }
      }
    }
  }

  /** The age pass keeps exactly the archives that were not last written before the cutoff, in order. */
  lemma {:induction false} YoungAreKept(files: seq<Archive>, stamps: map<nat, int>, cutoff: Option<int>)
    ensures forall a :: a in Young(files, stamps, cutoff) <==>
      a in files && (cutoff.Some? && a.name in stamps ==> stamps[a.name] >= cutoff.value)
  {
    if files != [] {
      YoungAreKept(files[1..], stamps, cutoff);
      assert files == [files[0]] + files[1..];
    }
  }
}
