/** The outbox over runs with crashes, re-saves and a sending worker. */
module OutboxRuns {
  import opened Common
  import opened Outbox

  /** A fixed event table of one kind, scanned for fixed recipients. */
  datatype Table = Table(kind: Kind, events: seq<Event>, chats: seq<nat>, since: int, horizon: int)

  /** What survives a crash, whether the scan has offered the row at its cursor, and every pair of event
      and recipient that was ever offered. */
  datatype World = World(deliveries: Deliveries, cursor: Cursor, midRow: bool, offered: set<Key>)

  datatype Action =
    | Offer(now: int)
    | Advance
    | Crash
    | Resave(event: Event, now: int)
    | Claim(key: Key, now: int)
    | MarkSent(key: Key, now: int)
    | MarkFailed(key: Key, now: int)
    | Recover

  function Left(t: Table, w: World): seq<Event> {
    Waiting(t.events, w.cursor, t.since, t.horizon)
  }

  function KeysOf(t: Table, e: Event): set<Key> {
    set chat | chat in t.chats :: KeyOf(t.kind, e, chat)
  }

  /** The worker confirms or fails only what it has claimed. */
  predicate Enabled(t: Table, w: World, a: Action) {
    match a
    case Offer(_) => Left(t, w) != [] && !w.midRow
    case Advance => w.midRow && Left(t, w) != []
    case Claim(k, now) => k in w.deliveries && Claimable(w.deliveries[k], now)
    case MarkSent(k, _) => k in w.deliveries && w.deliveries[k].state == Sending
    case MarkFailed(k, _) => k in w.deliveries && w.deliveries[k].state == Sending
    case _ => true
  }

  function Next(t: Table, w: World, a: Action): World
    requires Enabled(t, w, a)
  {
    match a
    case Offer(now) =>
      var e := Left(t, w)[0];
      w.(deliveries := OfferedTo(w.deliveries, t.kind, e, t.chats, now), midRow := true, offered := w.offered + KeysOf(t, e))
    case Advance => w.(cursor := Left(t, w)[0].Place(), midRow := false)
    case Crash => w.(midRow := false)
    case Resave(e, now) =>
      w.(deliveries := OfferedTo(w.deliveries, t.kind, e, t.chats, now), offered := w.offered + KeysOf(t, e))
    case Claim(k, _) => w.(deliveries := w.deliveries[k := w.deliveries[k].(state := Sending)])
    case MarkSent(k, now) => w.(deliveries := MarkedSent(w.deliveries, k, now))
    case MarkFailed(k, now) => w.(deliveries := MarkedFailed(w.deliveries, k, w.deliveries[k].attempts, now))
    case Recover => w.(deliveries := Recovered(w.deliveries))
  }

  ghost predicate IsRun(t: Table, run: seq<World>, acts: seq<Action>) {
    && |run| == |acts| + 1
    && Sorted(t.events) && !run[0].midRow && run[0].offered <= run[0].deliveries.Keys
    && forall i | 0 <= i < |acts| :: Enabled(t, run[i], acts[i]) && run[i + 1] == Next(t, run[i], acts[i])
  }

  // ----- coverage ---------------------------------------------------------------------------

  /** Every row that no longer waits was offered to every recipient; a row the scan stands on too. */
  ghost predicate Covered(t: Table, w: World, start: seq<Event>) {
    && (forall e, chat | e in start && e !in Left(t, w) && chat in t.chats :: KeyOf(t.kind, e, chat) in w.offered)
    && (w.midRow ==> Left(t, w) != [] && forall chat | chat in t.chats :: KeyOf(t.kind, Left(t, w)[0], chat) in w.offered)
  }

  lemma {:induction false} RunCovers(t: Table, run: seq<World>, acts: seq<Action>, i: nat)
    requires IsRun(t, run, acts) && i < |run|
    ensures Covered(t, run[i], Left(t, run[0]))
  {
    hide Waiting;
    if i > 0 {
      RunCovers(t, run, acts, i - 1);
      var w, a := run[i - 1], acts[i - 1];
      assert Enabled(t, w, a) && run[i] == Next(t, w, a);
      var left := Left(t, w);
      if a.Advance? {
        CursorCutsWaiting(t.events, w.cursor, t.since, t.horizon, 0);
        assert left == [left[0]] + left[1..];
      } else if a.Offer? || a.Resave? {
        assert w.offered <= run[i].offered;
        if a.Offer? {
          forall chat | chat in t.chats ensures KeyOf(t.kind, left[0], chat) in run[i].offered {
            assert KeyOf(t.kind, left[0], chat) in KeysOf(t, left[0]);
          }
        }
      }
    }
  }

  /** At step `j` the confirmed row of this message was dropped, past its retention. */
  ghost predicate DroppedAt(run: seq<World>, acts: seq<Action>, j: nat, k: Key)
    requires j < |acts| && j < |run|
  {
    acts[j].MarkSent? && k in run[j].deliveries && Expired(run[j].deliveries[k], acts[j].now)
  }

  lemma KeysStay(t: Table, w: World, a: Action, k: Key)
    requires Enabled(t, w, a) && k in w.deliveries
    ensures k in Next(t, w, a).deliveries || (a.MarkSent? && Expired(w.deliveries[k], a.now))
  {
    hide Waiting, OfferedTo;
    match a
    case Offer(now) => OfferOnlyAdds(w.deliveries, t.kind, Left(t, w)[0], t.chats, now);
    case Resave(e, now) => OfferOnlyAdds(w.deliveries, t.kind, e, t.chats, now);
    case _ =>
  }

  lemma OfferedIsThere(t: Table, w: World, a: Action, k: Key)
    requires Enabled(t, w, a) && k in Next(t, w, a).offered && k !in w.offered
    ensures k in Next(t, w, a).deliveries
  {
    hide Waiting, OfferedTo;
    match a
    case Offer(now) => OfferOnlyAdds(w.deliveries, t.kind, Left(t, w)[0], t.chats, now);
    case Resave(e, now) => OfferOnlyAdds(w.deliveries, t.kind, e, t.chats, now);
  }

  /** What was offered is in the outbox, or was confirmed and then dropped past its retention. */
  lemma {:induction false} OfferedIsKept(t: Table, run: seq<World>, acts: seq<Action>, i: nat, k: Key)
    requires IsRun(t, run, acts) && i < |run| && k in run[i].offered
    ensures k in run[i].deliveries || exists j :: 0 <= j < i && DroppedAt(run, acts, j, k)
  {
    hide Enabled, Next;
    if i > 0 {
      var w, a := run[i - 1], acts[i - 1];
      assert Enabled(t, w, a) && run[i] == Next(t, w, a);
      if k !in w.offered {
        OfferedIsThere(t, w, a, k);
      } else {
        OfferedIsKept(t, run, acts, i - 1, k);
        if k in w.deliveries {
          KeysStay(t, w, a, k);
          assert k in run[i].deliveries || DroppedAt(run, acts, i - 1, k);
        }
      }
    }
  }

  /** Wherever a crash falls, at every moment of every run, each eligible event either still waits behind
      the cursor, or its message to every recipient is in the outbox, or was confirmed and then dropped
      past its retention. */
  lemma NoEventIsSkipped(t: Table, run: seq<World>, acts: seq<Action>, i: nat, e: Event, chat: nat)
    requires IsRun(t, run, acts) && i < |run| && chat in t.chats
    requires e in t.events && InScope(e, t.since, t.horizon) && Before(Raised(run[0].cursor, t.since), e.Place())
    ensures var k := KeyOf(t.kind, e, chat);
      e in Left(t, run[i]) || k in run[i].deliveries || exists j :: 0 <= j < i && DroppedAt(run, acts, j, k)
  {
    RunCovers(t, run, acts, i);
    if KeyOf(t.kind, e, chat) in run[i].offered {
      OfferedIsKept(t, run, acts, i, KeyOf(t.kind, e, chat));
    }
    WaitingMembers(t.events, run[0].cursor, t.since, t.horizon);
    hide Waiting;
    assert e in Left(t, run[0]);
  }

  /** The scan ends: each advance leaves one row fewer, and nothing brings a row back. */
  lemma ScanShrinks(t: Table, w: World, a: Action)
    requires Sorted(t.events) && Enabled(t, w, a)
    ensures |Left(t, Next(t, w, a))| == |Left(t, w)| - if a.Advance? then 1 else 0
  {
    if a.Advance? {
      CursorCutsWaiting(t.events, w.cursor, t.since, t.horizon, 0);
    }
    hide Waiting;
  }

  // ----- once -------------------------------------------------------------------------------

  lemma OffersKeep(t: Table, ds: Deliveries, e: Event, now: int, k: Key)
    requires k in ds
    ensures var r := OfferedTo(ds, t.kind, e, t.chats, now); k in r && r[k] == ds[k]
  {
    OfferOnlyAdds(ds, t.kind, e, t.chats, now);
  }

  /** A confirmed row stays confirmed for as long as it is there. */
  lemma SentStays(t: Table, w: World, a: Action, k: Key)
    requires Enabled(t, w, a) && k in w.deliveries && w.deliveries[k].state == Sent
    requires k in Next(t, w, a).deliveries
    ensures Next(t, w, a).deliveries[k].state == Sent
  {
    hide Waiting;
    match a
    case Offer(now) => OffersKeep(t, w.deliveries, Left(t, w)[0], now, k);
    case Resave(e, now) => OffersKeep(t, w.deliveries, e, now, k);
    case _ =>
  }

  lemma {:induction false} SentStaysOverRun(t: Table, run: seq<World>, acts: seq<Action>, k: Key, i: nat, j: nat)
    requires IsRun(t, run, acts) && i <= j < |run|
    requires forall x | i <= x <= j :: k in run[x].deliveries
    requires run[i].deliveries[k].state == Sent
    ensures run[j].deliveries[k].state == Sent
    decreases j
  {
    hide Enabled, Next;
    if i < j {
      SentStaysOverRun(t, run, acts, k, i, j - 1);
      assert k in run[j].deliveries && run[j] == Next(t, run[j - 1], acts[j - 1]);
      SentStays(t, run[j - 1], acts[j - 1], k);
    }
  }

  /** An event reaches a recipient at most once while its row is retained: after one confirmed send, no
      rescan, re-save, crash recovery or retry ever claims it again. */
  lemma SentOnlyOnce(t: Table, run: seq<World>, acts: seq<Action>, k: Key, i: nat, j: nat)
    requires IsRun(t, run, acts) && i < j < |acts|
    requires acts[i].MarkSent? && acts[i].key == k
    requires forall x | i < x <= j :: k in run[x].deliveries
    ensures !(acts[j].Claim? && acts[j].key == k) && !(acts[j].MarkSent? && acts[j].key == k)
  {
    assert Enabled(t, run[i], acts[i]) && run[i + 1] == Next(t, run[i], acts[i]);
    assert run[i + 1].deliveries[k].state == Sent;
    SentStaysOverRun(t, run, acts, k, i + 1, j);
    assert Enabled(t, run[j], acts[j]);
    hide IsRun;
  }

  // ----- sent again -------------------------------------------------------------------------

  /** No other message about this row was queued for this recipient. */
  predicate OnlyOne(ds: Deliveries, k: Key) {
    forall x | x in ds && x.kind == k.kind && x.pk == k.pk && x.chat == k.chat :: x == k
  }

  /** A row whose message was confirmed at `sentAt` is saved again as `e'`, after another message was
      confirmed at `now`: it is queued for the recipient again exactly if the stamp in its event key
      moved, or its own confirmation is past the retention time. */
  lemma ResaveSendsAgainIff(ds: Deliveries, kind: Kind, e: Event, e': Event, chat: nat, other: Key, sentAt: int, now: int, later: int)
    requires e'.pk == e.pk && other != KeyOf(kind, e, chat) && OnlyOne(ds, KeyOf(kind, e, chat))
    requires KeyOf(kind, e, chat) in ds && ds[KeyOf(kind, e, chat)] == Delivery(Sent, ds[KeyOf(kind, e, chat)].attempts,
      ds[KeyOf(kind, e, chat)].nextAt, ds[KeyOf(kind, e, chat)].createdAt, Some(sentAt))
    ensures var purged, k := MarkedSent(ds, other, now), KeyOf(kind, e', chat);
      var again := OfferedTo(purged, kind, e', [chat], later);
      && (again != purged <==> StampOf(kind, e') != StampOf(kind, e) || sentAt < now - SENT_RETENTION)
      && (again != purged ==> k in again && Claimable(again[k], later + DelayOf(kind)))
  {
    var purged, k := MarkedSent(ds, other, now), KeyOf(kind, e', chat);
    assert [chat][..0] == [];
    assert OfferedTo(purged, kind, e', [chat], later) == Inserted(purged, k, later, DelayOf(kind));
    if k !in purged {
      assert k in Inserted(purged, k, later, DelayOf(kind));
    }
  }
}
