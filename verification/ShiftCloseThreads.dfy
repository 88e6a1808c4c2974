/** A refresh works on its own copy of the tracker while save signals read and then write the durable one:
    what holds wherever their reads and writes fall. */
module ShiftCloseThreads {
  import opened Common
  import opened Text
  import opened ShiftClose
  import opened ShiftCloseRuns

  /** Where the one refresh stands; `local` is the copy it read at its beginning and writes along. */
  datatype Phase =
    | Idle
    | Discovering(bundles: seq<Bundle>, next: nat, local: Entries)
    | Vanishing(bundles: seq<Bundle>, left: set<Text>, local: Entries)
    | Probing(bundles: seq<Bundle>, next: nat, cycle: Cycle)
  {
    function Copy(): Entries
      requires !Idle?
    {
      if Probing? then cycle.entries else local
    }
  }

  /** A save signal that has read the tracker's row for its close and has yet to write one. */
  datatype Read = Read(bundle: Bundle, previous: Option<Entry>)

  /** The durable tracker, the signals under way, the refresh, and every close and digest that a cloud
      answer echoed with an acknowledgement. */
  datatype World = World(durable: Entries, pending: seq<Read>, phase: Phase, echoed: set<(Text, Option<Text>)>)

  datatype Action =
    | Signal(bundle: Bundle)
    | Store(i: nat, now: int)
    | Begin(bundles: seq<Bundle>)
    | Discover(now: int)
    | LookForVanished
    | Vanish(uuid: Text, now: int)
    | StartProbing
    | Ask(answer: Remote, now: int)
    | Quit
    | Halt
    | Compacting(entries: Entries)

  /** A refresh may quit anywhere, and the process may end anywhere. */
  ghost predicate Enabled(w: World, a: Action) {
    match a
    case Signal(_) => true
    case Store(i, _) => i < |w.pending|
    case Begin(bs) => w.phase.Idle? && DistinctBundles(bs)
    case Discover(_) => w.phase.Discovering? && w.phase.next < |w.phase.bundles|
    case LookForVanished => w.phase.Discovering? && w.phase.next == |w.phase.bundles|
    case Vanish(k, _) => w.phase.Vanishing? && k in w.phase.left
    case StartProbing => w.phase.Vanishing? && w.phase.left == {}
    case Ask(_, _) => w.phase.Probing? && w.phase.next < |w.phase.bundles|
    case Quit => !w.phase.Idle?
    case Halt => true
    case Compacting(es) => SameMarks(w.durable, es)
  }

  /** Nothing is asked about this close at its turn. */
  predicate Skips(c: Cycle, b: Bundle) {
    (b.uuid in c.entries && c.entries[b.uuid].state == ACKNOWLEDGED) || b.error.Some? || c.probes >= MAX_PROBES
  }

  predicate Confirms(c: Cycle, b: Bundle, answer: Remote) {
    !Skips(c, b) && c.outage.None? && answer.verdict == CloudAcknowledged && answer.acknowledged && Echoes(answer, b)
  }

  /** A signal writes what discovery would make of the row it has read. */
  function Stored(es: Entries, r: Read, now: int): Entries {
    match Discovered(r.bundle, r.previous, now)
    case None => es
    case Some(e) => es[r.bundle.uuid := e]
  }

  function Next(w: World, a: Action): World
    requires Enabled(w, a)
  {
    match a
    case Signal(b) => w.(pending := w.pending + [Read(b, Lookup(w.durable, b.uuid))])
    case Store(i, now) => w.(durable := Stored(w.durable, w.pending[i], now), pending := w.pending[..i] + w.pending[i + 1..])
    case Begin(bs) => w.(phase := Discovering(bs, 0, w.durable))
    case Discover(now) =>
      var p := w.phase;
      var b := p.bundles[p.next];
      (match Discovered(b, Lookup(p.local, b.uuid), now)
       case None => w.(phase := Discovering(p.bundles, p.next + 1, p.local))
       case Some(e) =>
         w.(durable := w.durable[b.uuid := e], phase := Discovering(p.bundles, p.next + 1, p.local[b.uuid := e])))
    case LookForVanished => w.(phase := Vanishing(w.phase.bundles, w.phase.local.Keys, w.phase.local))
    case Vanish(k, now) =>
      var p := w.phase;
      var left := p.left - {k};
      if k !in p.local || p.local[k].state == ACKNOWLEDGED || k in Uuids(p.bundles) then w.(phase := Vanishing(p.bundles, left, p.local))
      else
        var e := p.local[k].(state := CONFLICT, reason := LocalMissing, updatedAt := now);
        w.(durable := w.durable[k := e], phase := Vanishing(p.bundles, left, p.local[k := e]))
    case StartProbing => w.(phase := Probing(w.phase.bundles, 0, Cycle(w.phase.local, 0, None)))
    case Ask(answer, now) =>
      var p := w.phase;
      var b := p.bundles[p.next];
      var c := Probe(p.cycle, b, answer, now);
      World(if Skips(p.cycle, b) then w.durable else w.durable[b.uuid := c.entries[b.uuid]],
            w.pending,
            Probing(p.bundles, p.next + 1, c),
            w.echoed + if Confirms(p.cycle, b, answer) then {(b.uuid, b.digest)} else {})
    case Quit => w.(phase := Idle)
    case Halt => w.(pending := [], phase := Idle)
    case Compacting(es) => w.(durable := es)
  }

  // ----- what always holds ------------------------------------------------------------------

  predicate Unresolved(e: Entry) {
    e.state == PENDING || e.state == CONFLICT
  }

  /** A durable row is the refresh's own, or what a signal made of it since: unresolved. */
  predicate Near(durable: Entry, local: Entry) {
    || durable == local
    || (durable.state == local.state == ACKNOWLEDGED && durable.digest == local.digest)
    || Unresolved(durable)
  }

  ghost predicate Tracks(durable: Entries, local: Entries) {
    && local.Keys <= durable.Keys
    && forall k | k in durable :: if k in local then Near(durable[k], local[k]) else Unresolved(durable[k])
  }

  ghost predicate AcksEchoed(es: Entries, echoed: set<(Text, Option<Text>)>) {
    forall k | k in es && es[k].state == ACKNOWLEDGED :: es[k].digest.Some? && (k, es[k].digest) in echoed
  }

  /** How many of the refresh's bundles are accounted for in its copy. */
  function Settled(p: Phase): nat
    requires !p.Idle?
  {
    if p.Discovering? then p.next else |p.bundles|
  }

  ghost predicate PhaseTrue(w: World) {
    var p := w.phase;
    !p.Idle? ==>
      && Tracks(w.durable, p.Copy())
      && AcksEchoed(p.Copy(), w.echoed)
      && DistinctBundles(p.bundles)
      && Settled(p) <= |p.bundles|
      && (forall i | 0 <= i < Settled(p) :: Accounted(p.Copy(), p.bundles[i]))
      && (p.Probing? && p.cycle.outage.Some? ==> p.cycle.outage.value.verdict == UNAVAILABLE)
      && (p.Probing? ==> p.next <= |p.bundles|)
  }

  ghost predicate Inv(w: World) {
    AcksEchoed(w.durable, w.echoed) && PhaseTrue(w)
  }

  lemma StoreKeeps(w: World, i: nat, now: int)
    requires Inv(w) && i < |w.pending|
    ensures Inv(Next(w, Store(i, now)))
  {
    DiscoveredIs(w.pending[i].bundle, w.pending[i].previous, now);
    hide Discovered, Accounted, DistinctBundles;
  }

  lemma BeginKeeps(w: World, bs: seq<Bundle>)
    requires Inv(w) && Enabled(w, Begin(bs))
    ensures Inv(Next(w, Begin(bs)))
  {
    hide Accounted, DistinctBundles;
  }

  lemma DiscoverKeeps(w: World, now: int)
    requires Inv(w) && Enabled(w, Discover(now))
    ensures Inv(Next(w, Discover(now)))
  {
    var p := w.phase;
    var b := p.bundles[p.next];
    DiscoveredIs(b, Lookup(p.local, b.uuid), now);
    hide Discovered, EntryFor;
    var w' := Next(w, Discover(now));
    forall i | 0 <= i < p.next + 1 ensures Accounted(w'.phase.local, p.bundles[i]) {
      if i < p.next {
        assert Accounted(p.local, p.bundles[i]) && p.bundles[i].uuid != b.uuid;
      }
    }
  }

  lemma VanishKeeps(w: World, k: Text, now: int)
    requires Inv(w) && Enabled(w, Vanish(k, now))
    ensures Inv(Next(w, Vanish(k, now)))
  {
    var p := w.phase;
    var w' := Next(w, Vanish(k, now));
    forall i | 0 <= i < |p.bundles| ensures Accounted(w'.phase.local, p.bundles[i]) {
      assert Accounted(p.local, p.bundles[i]);
      assert p.bundles[i] in p.bundles && p.bundles[i].uuid in Uuids(p.bundles);
    }
    hide DistinctBundles, Uuids;
  }

  /** What one answer does to the refresh's copy. */
  lemma AskIs(c: Cycle, b: Bundle, answer: Remote, now: int)
    requires c.outage.Some? ==> c.outage.value.verdict == UNAVAILABLE
    ensures var c' := Probe(c, b, answer, now);
      && (Skips(c, b) ==> c' == c)
      && (!Skips(c, b) ==>
            && c'.entries == c.entries[b.uuid := c'.entries[b.uuid]]
            && (c'.entries[b.uuid].state == ACKNOWLEDGED ==>
                  Confirms(c, b, answer) && c'.entries[b.uuid].digest == b.digest && b.digest.Some?))
      && (c'.outage.Some? ==> c'.outage.value.verdict == UNAVAILABLE)
  {
  }

  lemma AskKeeps(w: World, answer: Remote, now: int)
    requires Inv(w) && Enabled(w, Ask(answer, now))
    ensures Inv(Next(w, Ask(answer, now)))
  {
    var p := w.phase;
    var b := p.bundles[p.next];
    AskIs(p.cycle, b, answer, now);
    var c := Probe(p.cycle, b, answer, now);
    forall i | 0 <= i < |p.bundles| ensures Accounted(c.entries, p.bundles[i]) {
      assert Accounted(p.cycle.entries, p.bundles[i]);
      ProbeAccounts(p.cycle, b, answer, now, p.bundles[i]);
    }
    hide Probe, Skips, Confirms, Accounted, DistinctBundles;
  }

  lemma CompactKeeps(w: World, es: Entries)
    requires Inv(w) && Enabled(w, Compacting(es))
    ensures Inv(Next(w, Compacting(es)))
  {
    hide Accounted, DistinctBundles;
  }

  lemma StepKeeps(w: World, a: Action)
    requires Inv(w) && Enabled(w, a)
    ensures Inv(Next(w, a))
  {
    match a
    case Signal(_) => {}
    case Store(i, now) => StoreKeeps(w, i, now);
    case Begin(bs) => BeginKeeps(w, bs);
    case Discover(now) => DiscoverKeeps(w, now);
    case LookForVanished => {}
    case Vanish(k, now) => VanishKeeps(w, k, now);
    case StartProbing => {}
    case Ask(answer, now) => AskKeeps(w, answer, now);
    case Quit => {}
    case Halt => {}
    case Compacting(es) => CompactKeeps(w, es);
  }

  // ----- runs -------------------------------------------------------------------------------

  ghost predicate IsRun(run: seq<World>, acts: seq<Action>) {
    && |run| == |acts| + 1
    && run[0] == World(map[], [], Idle, {})
    && forall i | 0 <= i < |acts| :: Enabled(run[i], acts[i]) && run[i + 1] == Next(run[i], acts[i])
  }

  lemma {:induction false} RunKeeps(run: seq<World>, acts: seq<Action>, i: nat)
    requires IsRun(run, acts) && i < |run|
    ensures Inv(run[i])
  {
    hide Inv, Enabled, Next;
    if i > 0 {
      RunKeeps(run, acts, i - 1);
      assert Enabled(run[i - 1], acts[i - 1]) && run[i] == Next(run[i - 1], acts[i - 1]);
      StepKeeps(run[i - 1], acts[i - 1]);
    } else {
      EmptyIsTrue();
    }
  }

  lemma EmptyIsTrue()
    ensures Inv(World(map[], [], Idle, {}))
  {
  }

  /** Some earlier answer of the cloud, given when it was this close's turn, acknowledged exactly this
      digest. */
  ghost predicate WasConfirmed(run: seq<World>, acts: seq<Action>, i: nat, k: Text, digest: Option<Text>)
    requires i <= |acts| && i < |run|
  {
    exists j :: 0 <= j < i && ConfirmedAt(run[j], acts[j], k, digest)
  }

  ghost predicate ConfirmedAt(w: World, a: Action, k: Text, digest: Option<Text>) {
    && a.Ask? && w.phase.Probing? && w.phase.next < |w.phase.bundles|
    && var b := w.phase.bundles[w.phase.next];
       b.uuid == k && b.digest == digest && Confirms(w.phase.cycle, b, a.answer)
  }

  lemma {:induction false} EchoesAreAnswers(run: seq<World>, acts: seq<Action>, i: nat, k: Text, digest: Option<Text>)
    requires IsRun(run, acts) && i < |run| && (k, digest) in run[i].echoed
    ensures WasConfirmed(run, acts, i, k, digest)
  {
    if i > 0 {
      var w, a := run[i - 1], acts[i - 1];
      assert Enabled(w, a) && run[i] == Next(w, a);
      hide Confirms, Discovered, Probe, Skips;
      if (k, digest) in w.echoed {
        EchoesAreAnswers(run, acts, i - 1, k, digest);
        var j :| 0 <= j < i - 1 && ConfirmedAt(run[j], acts[j], k, digest);
      } else {
        assert ConfirmedAt(w, a, k, digest);
      }
    }
  }

  /** Wherever signals fall, every acknowledged row's digest was echoed by a cloud answer of the run. */
  lemma AckWasEchoedAnywhere(run: seq<World>, acts: seq<Action>, i: nat, k: Text)
    requires IsRun(run, acts) && i < |run| && k in run[i].durable && run[i].durable[k].state == ACKNOWLEDGED
    ensures run[i].durable[k].digest.Some? && WasConfirmed(run, acts, i, k, run[i].durable[k].digest)
  {
    RunKeeps(run, acts, i);
    EchoesAreAnswers(run, acts, i, k, run[i].durable[k].digest);
    hide IsRun, PhaseTrue, WasConfirmed;
  }

  /** When a refresh has asked about everything and the status is clear, every close it discovered is
      whole and acknowledged with the digest it was discovered with, wherever signals fell. */
  lemma ClearIsSoundAnywhere(run: seq<World>, acts: seq<Action>, i: nat, b: Bundle)
    requires IsRun(run, acts) && i < |run|
    requires var p := run[i].phase; p.Probing? && p.next == |p.bundles| && b in p.bundles
    requires Clear(run[i].durable)
    ensures var es := run[i].durable;
      b.error.None? && b.uuid in es && es[b.uuid].state == ACKNOWLEDGED && es[b.uuid].digest == b.digest
  {
    RunKeeps(run, acts, i);
    hide IsRun, AcksEchoed, DistinctBundles;
    var p := run[i].phase;
    var j :| 0 <= j < |p.bundles| && p.bundles[j] == b;
    assert Accounted(p.cycle.entries, b);
    assert Near(run[i].durable[b.uuid], p.cycle.entries[b.uuid]);
  }

  // ----- an acknowledgement is kept over a run ------------------------------------------------

  /** No bundle that a step brings contradicts the acknowledgement. */
  predicate Agrees(a: Action, k: Text, digest: Option<Text>) {
    match a
    case Signal(b) => !Contradicts(b, k, digest)
    case Begin(bs) => forall b | b in bs :: !Contradicts(b, k, digest)
    case _ => true
  }

  predicate PhaseAgrees(p: Phase, k: Text, digest: Option<Text>) {
    !p.Idle? ==> forall b | b in p.bundles :: !Contradicts(b, k, digest)
  }

  /** A signal that writes nothing over an acknowledgement: it is about another close, or has read one of
      its own whole bundle. */
  predicate LeavesAck(r: Read, k: Text) {
    r.bundle.uuid == k ==>
      r.bundle.error.None? && r.previous.Some? && r.previous.value.state == ACKNOWLEDGED && r.previous.value.digest == r.bundle.digest
  }

  ghost predicate ReadsAgree(pending: seq<Read>, k: Text) {
    forall r | r in pending :: LeavesAck(r, k)
  }

  /** A signal undoes an acknowledgement exactly when it is about that close and brings something else
      than the acknowledgement it read, or has read the tracker before one was there. */
  lemma StoreKeepsAckIff(es: Entries, r: Read, now: int, k: Text, digest: Option<Text>)
    requires Acked(es, k, digest) && digest.Some?
    ensures Acked(Stored(es, r, now), k, digest) <==> LeavesAck(r, k)
  {
    DiscoveredIs(r.bundle, r.previous, now);
    hide EntryFor;
  }

  lemma StoreKeepsAck(w: World, i: nat, now: int, k: Text, digest: Option<Text>)
    requires i < |w.pending| && Acked(w.durable, k, digest) && digest.Some? && ReadsAgree(w.pending, k)
    ensures Acked(Next(w, Store(i, now)).durable, k, digest) && ReadsAgree(Next(w, Store(i, now)).pending, k)
  {
    StoreKeepsAckIff(w.durable, w.pending[i], now, k, digest);
    hide Stored, LeavesAck, Acked;
    assert w.pending[i] in w.pending;
    forall r | r in Next(w, Store(i, now)).pending ensures r in w.pending { }
  }

  lemma StepKeepsAck(w: World, a: Action, k: Text, digest: Option<Text>)
    requires Inv(w) && Enabled(w, a) && Acked(w.durable, k, digest) && digest.Some?
    requires PhaseAgrees(w.phase, k, digest) && ReadsAgree(w.pending, k) && Agrees(a, k, digest)
    ensures var after := Next(w, a);
      Acked(after.durable, k, digest) && PhaseAgrees(after.phase, k, digest) && ReadsAgree(after.pending, k)
  {
    hide AcksEchoed, DistinctBundles, EntryFor, Accounted, Validated, Stored;
    if !w.phase.Idle? {
      assert k in w.phase.Copy() && Acked(w.phase.Copy(), k, digest);
    }
    match a
    case Store(i, now) => StoreKeepsAck(w, i, now, k, digest);
    case Discover(now) => assert w.phase.bundles[w.phase.next] in w.phase.bundles;
    case Ask(answer, now) => assert w.phase.bundles[w.phase.next] in w.phase.bundles;
    case _ =>
  }

  /** An acknowledgement stays through every later step of a run, refreshes and signals interleaved as they
      may be, as long as no signal under way has read the tracker before it and no bundle comes that is
      broken or has another digest. */
  lemma {:induction false} AckIsKept(run: seq<World>, acts: seq<Action>, i: nat, j: nat, k: Text, digest: Option<Text>)
    requires IsRun(run, acts) && i <= j < |run| && Acked(run[i].durable, k, digest) && digest.Some?
    requires PhaseAgrees(run[i].phase, k, digest) && ReadsAgree(run[i].pending, k)
    requires forall x | i <= x < j :: Agrees(acts[x], k, digest)
    ensures Acked(run[j].durable, k, digest) && PhaseAgrees(run[j].phase, k, digest) && ReadsAgree(run[j].pending, k)
    decreases j
  {
    hide Inv, Enabled, Next, Agrees, Acked, ReadsAgree, PhaseAgrees;
    if i < j {
      AckIsKept(run, acts, i, j - 1, k, digest);
      RunKeeps(run, acts, j - 1);
      assert Enabled(run[j - 1], acts[j - 1]) && run[j] == Next(run[j - 1], acts[j - 1]);
      StepKeepsAck(run[j - 1], acts[j - 1], k, digest);
    }
  }

  /** A save signal, and a whole refresh of that close between its read and its write. */
  function LateActs(b: Bundle, answer: Remote, now: int): seq<Action> {
    [Signal(b), Begin([b]), Discover(now), LookForVanished, Vanish(b.uuid, now), StartProbing, Ask(answer, now), Store(0, now)]
  }

  /** The tracker row of the close when it is found, and when the cloud has acknowledged it. */
  function FoundRow(b: Bundle, now: int): (e: Entry)
    ensures e.state == PENDING && e.digest == b.digest
  {
    EntryFor(b, None, PENDING, AwaitingAck, false, now)
  }

  function AckedRow(b: Bundle, answer: Remote, now: int): (e: Entry)
    ensures e.state == ACKNOWLEDGED && e.digest == b.digest
  {
    EntryFor(b, Some(FoundRow(b, now)), ACKNOWLEDGED, FromCloud(answer.code), true, now)
  }

  lemma LateDiscovery(b: Bundle, now: int)
    requires b.error.None?
    ensures var es, w := map[b.uuid := FoundRow(b, now)], World(map[], [Read(b, None)], Idle, {});
      && Next(World(map[], [], Idle, {}), Signal(b)) == w
      && Next(w, Begin([b])) == w.(phase := Discovering([b], 0, map[]))
      && Next(w.(phase := Discovering([b], 0, map[])), Discover(now)) == w.(durable := es, phase := Discovering([b], 1, es))
      && Next(w.(durable := es, phase := Discovering([b], 1, es)), LookForVanished)
         == w.(durable := es, phase := Vanishing([b], {b.uuid}, es))
      && Next(w.(durable := es, phase := Vanishing([b], {b.uuid}, es)), Vanish(b.uuid, now))
         == w.(durable := es, phase := Vanishing([b], {}, es))
  {
    hide EntryFor, Confirms, Probe, Skips;
    var es := map[b.uuid := FoundRow(b, now)];
    assert es.Keys == {b.uuid};
    assert {b.uuid} - {b.uuid} == {};
    assert [b][0] in [b] && b.uuid in Uuids([b]);
  }

  lemma LateAnswer(b: Bundle, answer: Remote, now: int)
    requires b.error.None? && answer.verdict == CloudAcknowledged && answer.acknowledged && Echoes(answer, b)
    ensures var es, es' := map[b.uuid := FoundRow(b, now)], map[b.uuid := AckedRow(b, answer, now)];
      var w, done := World(es, [Read(b, None)], Vanishing([b], {}, es), {}), Cycle(es', 1, None);
      && Next(w, StartProbing) == w.(phase := Probing([b], 0, Cycle(es, 0, None)))
      && Next(w.(phase := Probing([b], 0, Cycle(es, 0, None))), Ask(answer, now))
         == World(es', [Read(b, None)], Probing([b], 1, done), {(b.uuid, b.digest)})
      && Next(World(es', [Read(b, None)], Probing([b], 1, done), {(b.uuid, b.digest)}), Store(0, now))
         == World(es, [], Probing([b], 1, done), {(b.uuid, b.digest)})
  {
    hide EntryFor, Echoes;
    var es, es' := map[b.uuid := FoundRow(b, now)], map[b.uuid := AckedRow(b, answer, now)];
    assert es[b.uuid := AckedRow(b, answer, now)] == es' && es'[b.uuid := FoundRow(b, now)] == es;
    assert Probe(Cycle(es, 0, None), b, answer, now) == Cycle(es', 1, None) by { AcknowledgedIff(b, answer); }
    assert Stored(es', Read(b, None), now) == es;
    assert [Read(b, None)][..0] + [Read(b, None)][1..] == [];
  }

  /** It can happen: the cloud acknowledges the close in between, and the signal's row comes last. The
      close is pending again, until a later refresh asks. */
  lemma LateSignalUndoesAck(b: Bundle, answer: Remote, now: int)
    requires b.error.None? && answer.verdict == CloudAcknowledged && answer.acknowledged && Echoes(answer, b)
    ensures exists run: seq<World> ::
      && IsRun(run, LateActs(b, answer, now))
      && Acked(run[7].durable, b.uuid, b.digest)
      && b.uuid in run[8].durable && run[8].durable[b.uuid].state == PENDING
  {
    hide Echoes, FoundRow, AckedRow, Next;
    LateDiscovery(b, now);
    LateAnswer(b, answer, now);
    var es, es' := map[b.uuid := FoundRow(b, now)], map[b.uuid := AckedRow(b, answer, now)];
    var w := World(map[], [Read(b, None)], Idle, {});
    var end := World(es', [Read(b, None)], Probing([b], 1, Cycle(es', 1, None)), {(b.uuid, b.digest)});
    var run := [
      World(map[], [], Idle, {}), w, w.(phase := Discovering([b], 0, map[])),
      w.(durable := es, phase := Discovering([b], 1, es)), w.(durable := es, phase := Vanishing([b], {b.uuid}, es)),
      w.(durable := es, phase := Vanishing([b], {}, es)), w.(durable := es, phase := Probing([b], 0, Cycle(es, 0, None))),
      end, end.(durable := es, pending := [])];
    assert DistinctBundles([b]);
    assert IsRun(run, LateActs(b, answer, now));
  }
}
