/** What the outbox and one scan do to every single row, and how long a message waits. */
module OutboxOutcomes {
  import opened Common
  import opened Outbox
  import opened OutboxRuns

  // ----- keys -------------------------------------------------------------------------------

  /** Two saves of a row make the same message exactly when they agree on what the event is: nothing more
      for a recorded order, the payment action or else the paid time for a paid one, the end for a shift. */
  lemma SameKeyIff(kind: Kind, a: Event, b: Event, chat: nat, other: nat)
    ensures KeyOf(kind, a, chat) == KeyOf(kind, b, other) <==>
      && a.pk == b.pk && chat == other
      && (kind == OrderPaid ==> if a.action.Some? || b.action.Some? then a.action == b.action else a.at == b.at)
      && (kind == ShiftEnded ==> a.at == b.at)
    ensures KeyOf(kind, a, chat).kind == kind
  {
  }

  // ----- offering ---------------------------------------------------------------------------

  function WaitOf(kind: Kind): int {
    match kind case OrderRecorded => 3 case OrderPaid => 0 case ShiftEnded => 0
  }

  /** A new row is due after its kind's settling time, with nothing attempted. */
  predicate IsNew(d: Delivery, kind: Kind, now: int) {
    d == Delivery(Pending, 0, now + WaitOf(kind), now, None)
  }

  /** Offering adds a new row for each recipient that has none, and disturbs nothing. */
  ghost predicate Offered(a: Deliveries, b: Deliveries, kind: Kind, es: seq<Event>, chats: seq<nat>, now: int) {
    && OnlyAdds(a, b)
    && (forall k :: k in b <==> k in a || exists e, chat :: e in es && chat in chats && k == KeyOf(kind, e, chat))
    && (forall k | k in b && k !in a :: IsNew(b[k], kind, now))
  }

  lemma {:induction false} OfferedAreNew(ds: Deliveries, kind: Kind, e: Event, chats: seq<nat>, now: int)
    ensures var r := OfferedTo(ds, kind, e, chats, now); forall k | k in r && k !in ds :: IsNew(r[k], kind, now)
  {
    if chats != [] {
      OfferedAreNew(ds, kind, e, chats[..|chats| - 1], now);
      hide KeyOf;
    }
  }

  lemma OfferComes(ds: Deliveries, kind: Kind, e: Event, chats: seq<nat>, now: int)
    ensures Offered(ds, OfferedTo(ds, kind, e, chats, now), kind, [e], chats, now)
  {
    hide IsNew, KeyOf, OfferedTo;
    OfferedAreNew(ds, kind, e, chats, now);
    OfferOnlyAdds(ds, kind, e, chats, now);
    assert e in [e];
  }

  lemma {:induction false} OffersCome(ds: Deliveries, kind: Kind, es: seq<Event>, chats: seq<nat>, now: int)
    ensures Offered(ds, OfferEvents(ds, kind, es, chats, now), kind, es, chats, now)
  {
    if es != [] {
      var n := |es| - 1;
      OffersCome(ds, kind, es[..n], chats, now);
      var before := OfferEvents(ds, kind, es[..n], chats, now);
      OfferComes(before, kind, es[n], chats, now);
      assert es == es[..n] + [es[n]];
      hide OfferedTo, IsNew;
      OfferedInTurn(ds, before, OfferEvents(ds, kind, es, chats, now), kind, es[..n], [es[n]], chats, now);
    }
  }

  lemma OfferedInTurn(a: Deliveries, b: Deliveries, c: Deliveries, kind: Kind, es: seq<Event>, fs: seq<Event>, chats: seq<nat>, now: int)
    requires Offered(a, b, kind, es, chats, now) && Offered(b, c, kind, fs, chats, now)
    ensures Offered(a, c, kind, es + fs, chats, now)
  {
    hide IsNew, KeyOf;
    OnlyAddsInTurn(a, b, c);
    forall k ensures k in c <==> k in a || exists e, chat :: e in es + fs && chat in chats && k == KeyOf(kind, e, chat) {
      if e, chat :| e in es + fs && chat in chats && k == KeyOf(kind, e, chat) {
        if e in es { assert k in b; }
      }
      if e, chat :| e in es && chat in chats && k == KeyOf(kind, e, chat) { assert e in es + fs; }
      if e, chat :| e in fs && chat in chats && k == KeyOf(kind, e, chat) { assert e in es + fs; }
    }
  }

  // ----- one pass of the scan ---------------------------------------------------------------

  /** The newest rows of the window, at most `room` of them. */
  ghost predicate Newest(es: seq<Event>, from: int, horizon: int, room: nat, r: seq<Event>) {
    && |r| <= room
    && (forall e | e in r :: e in es && from <= e.at <= horizon)
    && (forall e | e in es && from <= e.at <= horizon && e !in r :: |r| == room && forall x | x in r :: Before(e.Place(), x.Place()))
  }

  lemma {:induction false} OverlapIsNewest(es: seq<Event>, from: int, horizon: int, room: nat)
    requires Sorted(es)
    ensures Newest(es, from, horizon, room, Overlap(es, from, horizon, room))
  {
    if es != [] && room > 0 {
      var n := |es| - 1;
      var e := es[n];
      assert es == es[..n] + [e];
      var more := if InScope(e, from, horizon) then room - 1 else room;
      OverlapIsNewest(es[..n], from, horizon, more);
      LastIsNewest(es);
      hide Sorted;
    }
  }

  lemma LastIsNewest(es: seq<Event>)
    requires Sorted(es) && es != []
    ensures forall x | x in es[..|es| - 1] :: Before(x.Place(), es[|es| - 1].Place())
  {
    forall x | x in es[..|es| - 1] ensures Before(x.Place(), es[|es| - 1].Place()) {
      var i :| 0 <= i < |es| - 1 && es[..|es| - 1][i] == x;
      SortedAt(es, i, |es| - 1);
    }
  }

  /** The rows a pass takes: the first 250 that wait, oldest first. */
  lemma BatchIs(es: seq<Event>, c: Cursor, since: int, horizon: int)
    requires Sorted(es)
    ensures var b := Batch(es, c, since, horizon);
      && |b| <= 250
      && (forall e | e in b :: e in es && Waits(e, c, since, horizon))
      && (forall e | e in es && Waits(e, c, since, horizon) && e !in b :: |b| == 250 && forall x | x in b :: Before(x.Place(), e.Place()))
      && (b != [] ==> forall e | e in b && e != b[|b| - 1] :: Before(e.Place(), b[|b| - 1].Place()))
  {
    hide Waiting, Sorted;
    WaitingMembers(es, c, since, horizon);
    WaitingSorted(es, c, since, horizon);
    var w, b := Waiting(es, c, since, horizon), Batch(es, c, since, horizon);
    forall e | e in es && Waits(e, c, since, horizon) && e !in b ensures |b| == 250 && forall x | x in b :: Before(x.Place(), e.Place()) {
      assert e in w;
      var j :| 0 <= j < |w| && w[j] == e;
      assert forall i | 0 <= i < |b| :: b[i] == w[i] && b[i] in b;
      assert j >= |b|;
      forall x | x in b ensures Before(x.Place(), e.Place()) {
        var i :| 0 <= i < |b| && b[i] == x;
        assert w[i] == x;
        SortedAt(w, i, j);
      }
    }
    if b != [] {
      forall e | e in b && e != b[|b| - 1] ensures Before(e.Place(), b[|b| - 1].Place()) {
        var i :| 0 <= i < |b| && b[i] == e;
        assert w[i] == e && w[|b| - 1] == b[|b| - 1];
        SortedAt(w, i, |b| - 1);
      }
    }
  }

  lemma SortedAt(es: seq<Event>, i: nat, j: nat)
    requires Sorted(es) && i < j < |es|
    ensures Before(es[i].Place(), es[j].Place())
  {
  }

  /** In scope, and past the cursor as it is read: at a later time than it and than the watermark allow, or
      at that time with a greater key. */
  predicate Waits(e: Event, c: Cursor, since: int, horizon: int) {
    since <= e.at <= horizon && (e.at > Max(c.at, since) || (e.at == Max(c.at, since) && e.pk > c.pk))
  }

  lemma {:induction false} WaitingSorted(es: seq<Event>, c: Cursor, since: int, horizon: int)
    requires Sorted(es)
    ensures Sorted(Waiting(es, c, since, horizon))
  {
    if es != [] {
      var n := |es| - 1;
      WaitingSorted(es[..n], c, since, horizon);
      WaitingMembers(es[..n], c, since, horizon);
      var front := Waiting(es[..n], c, since, horizon);
      forall x | x in front ensures Before(x.Place(), es[n].Place()) {
        var i :| 0 <= i < n && es[..n][i] == x;
        assert Before(es[i].Place(), es[n].Place());
      }
      assert forall i | 0 <= i < |front| :: front[i] in front;
    }
  }

  /** A pass offers its batch and then the newest 250 rows of the overlap window, to every recipient, and
      moves the cursor to the last row of the batch. */
  lemma PassComes(s: Scan, kind: Kind, es: seq<Event>, chats: seq<nat>, since: int, overlapFrom: int, horizon: int, now: int)
    requires Sorted(es)
    ensures var batch, again := Batch(es, s.cursor, since, horizon), Overlap(es, overlapFrom, horizon, 250);
      var after := Pass(s, kind, es, chats, since, overlapFrom, horizon, now);
      && Offered(s.deliveries, after.deliveries, kind, batch + again, chats, now)
      && Newest(es, overlapFrom, horizon, 250, again)
      && after.cursor == if batch == [] then s.cursor else Cursor(batch[|batch| - 1].at, batch[|batch| - 1].pk)
  {
    var batch, again := Batch(es, s.cursor, since, horizon), Overlap(es, overlapFrom, horizon, 250);
    OverlapIsNewest(es, overlapFrom, horizon, 250);
    OffersCome(s.deliveries, kind, batch, chats, now);
    var middle := OfferEvents(s.deliveries, kind, batch, chats, now);
    OffersCome(middle, kind, again, chats, now);
    OfferedInTurn(s.deliveries, middle, OfferEvents(middle, kind, again, chats, now), kind, batch, again, chats, now);
    hide Batch, Overlap, OfferEvents, Offered, Newest;
  }

  function LaterIn(es: seq<Event>, e: Event, horizon: int): set<Event> {
    set x | x in es && Before(e.Place(), x.Place()) && x.at <= horizon
  }

  /** A row that was committed late, behind the cursor, is still offered by the next pass while it is in the
      overlap window and fewer than 250 rows are newer. */
  lemma LateRowIsCaught(s: Scan, kind: Kind, es: seq<Event>, chats: seq<nat>, since: int, overlapFrom: int, horizon: int, now: int, e: Event, chat: nat)
    requires Sorted(es) && e in es && overlapFrom <= e.at <= horizon && chat in chats
    requires |LaterIn(es, e, horizon)| < 250
    ensures KeyOf(kind, e, chat) in Pass(s, kind, es, chats, since, overlapFrom, horizon, now).deliveries
  {
    PassComes(s, kind, es, chats, since, overlapFrom, horizon, now);
    var batch, again := Batch(es, s.cursor, since, horizon), Overlap(es, overlapFrom, horizon, 250);
    OverlapDistinct(es, overlapFrom, horizon, 250);
    hide Batch, Overlap, Pass, LaterIn;
    if e !in again {
      NewerCount(again, es, e, horizon);
    }
    assert e in batch + again;
  }

  ghost predicate Distinct(es: seq<Event>) {
    forall i, j | 0 <= i < j < |es| :: es[i] != es[j]
  }

  lemma DistinctFront(e: Event, r: seq<Event>)
    requires Distinct(r) && e !in r
    ensures Distinct([e] + r)
  {
  }

  lemma {:induction false} OverlapDistinct(es: seq<Event>, from: int, horizon: int, room: nat)
    requires Sorted(es)
    ensures Distinct(Overlap(es, from, horizon, room))
  {
    if es != [] && room > 0 {
      hide Distinct;
      var n := |es| - 1;
      var more := if InScope(es[n], from, horizon) then room - 1 else room;
      OverlapDistinct(es[..n], from, horizon, more);
      OverlapIsNewest(es[..n], from, horizon, more);
      var r := Overlap(es[..n], from, horizon, more);
      DistinctFront(es[n], r);
    }
  }

  lemma NewerCount(again: seq<Event>, es: seq<Event>, e: Event, horizon: int)
    requires Distinct(again)
    requires forall x | x in again :: x in es && Before(e.Place(), x.Place()) && x.at <= horizon
    ensures |again| <= |LaterIn(es, e, horizon)|
  {
    var all := set x | x in again;
    DistinctSize(again);
    SubsetSize(all, LaterIn(es, e, horizon));
  }

  lemma {:induction false} DistinctSize(es: seq<Event>)
    requires Distinct(es)
    ensures |set x | x in es| == |es|
  {
    if es != [] {
      var n := |es| - 1;
      DistinctSize(es[..n]);
      assert es == es[..n] + [es[n]];
      assert (set x | x in es) == (set x | x in es[..n]) + {es[n]};
    }
  }

  lemma {:induction false} SubsetSize(a: set<Event>, b: set<Event>)
    requires a <= b
    ensures |a| <= |b|
  {
    if a != {} {
      var x :| x in a;
      SubsetSize(a - {x}, b - {x});
    }
  }

  // ----- sending ----------------------------------------------------------------------------

  /** A confirmed message is sent at that time; confirmed rows older than ninety days go, and nothing
      else. */
  lemma SentComes(ds: Deliveries, k: Key, now: int)
    requires k in ds
    ensures var r := MarkedSent(ds, k, now);
      && k in r && r[k] == ds[k].(state := Sent, sentAt := Some(now))
      && forall x | x in ds && x != k ::
           var late := ds[x].state == Sent && (if ds[x].sentAt.Some? then ds[x].sentAt.value else ds[x].createdAt) < now - 7776000;
           if late then x !in r else x in r && r[x] == ds[x]
    ensures MarkedSent(ds, k, now).Keys <= ds.Keys
  {
  }

  /** A failed one counts the attempt and is due again after its delay. */
  lemma FailedComes(ds: Deliveries, k: Key, now: int)
    requires k in ds
    ensures var n := ds[k].attempts + 1;
      MarkedFailed(ds, k, ds[k].attempts, now) == ds[k := ds[k].(state := Failed, attempts := n, nextAt := now + RetryDelay(n))]
  {
  }

  /** Five seconds, then twice as long each time, up to an hour. */
  lemma RetryDoubles(n: nat)
    requires n > 0
    ensures RetryDelay(1) == 5 && RetryDelay(n + 1) == Min(3600, 2 * RetryDelay(n))
  {
    if n > 10 {
      assert PowerOfTwo(10) == 1024 by { TenDoublings(); }
    } else {
      assert PowerOfTwo(n) == 2 * PowerOfTwo(n - 1);
    }
  }

  lemma TenDoublings()
    ensures PowerOfTwo(10) == 1024
  {
    assert PowerOfTwo(5) == 32;
    assert PowerOfTwo(10) == 32 * PowerOfTwo(5);
  }

  /** After a crash what was being sent is due again, and nothing else moves. */
  lemma RecoverComes(ds: Deliveries)
    ensures var r := Recovered(ds);
      r.Keys == ds.Keys && forall k | k in ds :: r[k] == if ds[k].state == Sending then ds[k].(state := Pending) else ds[k]
  {
  }

  /** A message that is waiting to be sent: it is not claimed before it is due. */
  predicate WaitsUntil(w: World, k: Key, due: int) {
    k in w.deliveries && (w.deliveries[k].state == Pending || w.deliveries[k].state == Failed) && w.deliveries[k].nextAt == due
  }

  lemma StillWaits(t: Table, w: World, a: Action, k: Key, due: int)
    requires Enabled(t, w, a) && WaitsUntil(w, k, due) && !(a.Claim? && a.key == k)
    ensures WaitsUntil(Next(t, w, a), k, due)
  {
    hide Waiting, OfferedTo;
    match a
    case Offer(now) => OffersKeep(t, w.deliveries, Left(t, w)[0], now, k);
    case Resave(e, now) => OffersKeep(t, w.deliveries, e, now, k);
    case _ =>
  }

  lemma {:induction false} WaitsOverRun(t: Table, run: seq<World>, acts: seq<Action>, k: Key, due: int, i: nat, j: nat)
    requires IsRun(t, run, acts) && i <= j < |run| && WaitsUntil(run[i], k, due)
    requires forall x | i <= x < j :: !(acts[x].Claim? && acts[x].key == k)
    ensures WaitsUntil(run[j], k, due)
    decreases j
  {
    hide Enabled, Next, WaitsUntil;
    if i < j {
      WaitsOverRun(t, run, acts, k, due, i, j - 1);
      StillWaits(t, run[j - 1], acts[j - 1], k, due);
    }
  }

  /** Over every run a failed message is not tried again before its retry delay has passed, whatever is
      rescanned, saved again or recovered meanwhile. */
  lemma RetryWaits(t: Table, run: seq<World>, acts: seq<Action>, k: Key, i: nat, j: nat)
    requires IsRun(t, run, acts) && i < j < |acts| && acts[i].MarkFailed? && acts[i].key == k && acts[j].Claim? && acts[j].key == k
    requires forall x | i < x < j :: !(acts[x].Claim? && acts[x].key == k)
    ensures k in run[i].deliveries && acts[j].now >= acts[i].now + RetryDelay(run[i].deliveries[k].attempts + 1)
  {
    assert Enabled(t, run[i], acts[i]) && run[i + 1] == Next(t, run[i], acts[i]);
    var due := acts[i].now + RetryDelay(run[i].deliveries[k].attempts + 1);
    assert WaitsUntil(run[i + 1], k, due);
    WaitsOverRun(t, run, acts, k, due, i + 1, j);
    assert Enabled(t, run[j], acts[j]);
    hide IsRun, Next, RetryDelay;
  }

  /** And a newly offered one is not sent before it has settled. */
  lemma NewWaits(t: Table, run: seq<World>, acts: seq<Action>, k: Key, i: nat, j: nat)
    requires IsRun(t, run, acts) && i < j < |acts| && (acts[i].Offer? || acts[i].Resave?)
    requires k !in run[i].deliveries && k in run[i + 1].deliveries && acts[j].Claim? && acts[j].key == k
    requires forall x | i < x < j :: !(acts[x].Claim? && acts[x].key == k)
    ensures acts[j].now >= acts[i].now + WaitOf(t.kind)
  {
    assert Enabled(t, run[i], acts[i]) && run[i + 1] == Next(t, run[i], acts[i]);
    OfferComes(run[i].deliveries, t.kind, if acts[i].Resave? then acts[i].event else Left(t, run[i])[0], t.chats, acts[i].now);
    hide OfferedTo, Waiting;
    assert WaitsUntil(run[i + 1], k, acts[i].now + WaitOf(t.kind));
    WaitsOverRun(t, run, acts, k, acts[i].now + WaitOf(t.kind), i + 1, j);
    assert Enabled(t, run[j], acts[j]);
  }
}
