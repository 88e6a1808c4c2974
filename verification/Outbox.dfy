/** The local message outbox and the keyset scan that keeps it complete. */
module Outbox {
  import opened Common

  datatype Kind = OrderRecorded | OrderPaid | ShiftEnded

  /** A row of the event table: its time, its primary key, and the payment action of a paid order. */
  datatype Event = Event(at: int, pk: nat, action: Option<nat>) {
    function Place(): Cursor {
      Cursor(at, pk)
    }
  }

  datatype Cursor = Cursor(at: int, pk: nat)

  /** What an event key holds beside the row: nothing for a recorded order, the payment action or else
      the paid time for a paid order, the end time for a shift. */
  datatype Stamp = NoStamp | ActionStamp(id: nat) | TimeStamp(at: int)

  function StampOf(kind: Kind, e: Event): Stamp {
    match kind
    case OrderRecorded => NoStamp
    case OrderPaid => if e.action.Some? then ActionStamp(e.action.value) else TimeStamp(e.at)
    case ShiftEnded => TimeStamp(e.at)
  }

  /** One message: an event for one recipient. */
  datatype Key = Key(kind: Kind, pk: nat, stamp: Stamp, chat: nat)

  function KeyOf(kind: Kind, e: Event, chat: nat): Key {
    Key(kind, e.pk, StampOf(kind, e), chat)
  }

  datatype State = Pending | Sending | Sent | Failed

  datatype Delivery = Delivery(state: State, attempts: nat, nextAt: int, createdAt: int, sentAt: Option<int>)

  type Deliveries = map<Key, Delivery>

  const SENT_RETENTION := 90 * 24 * 60 * 60
  const RECONCILE_BATCH := 250
  const MAX_RETRY := 3600
  const RECORDED_ORDER_SETTLE := 3

  /** A recorded order settles before it is sent. */
  function DelayOf(kind: Kind): int {
    if kind == OrderRecorded then RECORDED_ORDER_SETTLE else 0
  }

  // ----- the outbox -------------------------------------------------------------------------

  /** Insert or ignore: the primary key is the event and the recipient. */
  function Inserted(ds: Deliveries, k: Key, now: int, delay: int): Deliveries {
    if k in ds then ds else ds[k := Delivery(Pending, 0, now + Max(0, delay), now, None)]
  }

  function OfferedTo(ds: Deliveries, kind: Kind, e: Event, chats: seq<nat>, now: int): Deliveries {
    if chats == [] then ds
    else
      Inserted(OfferedTo(ds, kind, e, chats[..|chats| - 1], now), KeyOf(kind, e, chats[|chats| - 1]), now, DelayOf(kind))
  }

  predicate Claimable(d: Delivery, now: int) {
    (d.state == Pending || d.state == Failed) && d.nextAt <= now
  }

  predicate Expired(d: Delivery, now: int) {
    d.state == Sent && d.sentAt.GetOr(d.createdAt) < now - SENT_RETENTION
  }

  /** A confirmed send, which also drops confirmed sends older than the retention time. */
  function MarkedSent(ds: Deliveries, k: Key, now: int): Deliveries {
    var marked := if k in ds then ds[k := ds[k].(state := Sent, sentAt := Some(now))] else ds;
    map x | x in marked && !Expired(marked[x], now) :: marked[x]
  }

  function PowerOfTwo(n: nat): nat {
    if n == 0 then 1 else 2 * PowerOfTwo(n - 1)
  }

  function RetryDelay(attempts: nat): int
    requires attempts > 0
  {
    Min(MAX_RETRY, 5 * PowerOfTwo(Min(attempts - 1, 10)))
  }

  function MarkedFailed(ds: Deliveries, k: Key, attempts: nat, now: int): Deliveries {
    if k in ds then ds[k := ds[k].(state := Failed, attempts := attempts + 1, nextAt := now + RetryDelay(attempts + 1))]
    else ds
  }

  function Recovered(ds: Deliveries): Deliveries {
    map k | k in ds :: if ds[k].state == Sending then ds[k].(state := Pending) else ds[k]
  }

  /** Retries back off from five seconds to an hour and never exceed it. */
  lemma {:induction false} RetryBounds(attempts: nat)
    requires attempts > 0
    ensures 5 <= RetryDelay(attempts) <= MAX_RETRY
    ensures attempts > 1 ==> RetryDelay(attempts - 1) <= RetryDelay(attempts)
  {
    PowerGrows(Min(attempts - 1, 10));
    if attempts > 1 { PowerGrows(Min(attempts - 2, 10)); }
  }

  lemma {:induction false} PowerGrows(n: nat)
    ensures 1 <= PowerOfTwo(n) < PowerOfTwo(n + 1)
  {
    if n > 0 { PowerGrows(n - 1); }
  }

  // ----- the scan ---------------------------------------------------------------------------

  /** Keyset order: by time, then by primary key. */
  predicate Before(a: Cursor, b: Cursor) {
    a.at < b.at || (a.at == b.at && a.pk < b.pk)
  }

  /** The table as the query orders it. */
  ghost predicate Sorted(es: seq<Event>) {
    forall i, j | 0 <= i < j < |es| :: Before(es[i].Place(), es[j].Place())
  }

  predicate InScope(e: Event, since: int, horizon: int) {
    since <= e.at <= horizon
  }

  /** A stored cursor older than the watermark is read as if it stood there, but keeps its key. */
  function Raised(c: Cursor, since: int): Cursor {
    Cursor(Max(c.at, since), c.pk)
  }

  /** What the keyset query selects after a stored cursor, without its limit. */
  function Waiting(es: seq<Event>, c: Cursor, since: int, horizon: int): seq<Event> {
    if es == [] then []
    else
      var e := es[|es| - 1];
      Waiting(es[..|es| - 1], c, since, horizon) + if InScope(e, since, horizon) && Before(Raised(c, since), e.Place()) then [e] else []
  }

  function Batch(es: seq<Event>, c: Cursor, since: int, horizon: int): seq<Event> {
    var w := Waiting(es, c, since, horizon);
    if |w| <= RECONCILE_BATCH then w else w[..RECONCILE_BATCH]
  }

  lemma {:induction false} WaitingMembers(es: seq<Event>, c: Cursor, since: int, horizon: int)
    ensures forall e :: e in Waiting(es, c, since, horizon) <==> e in es && InScope(e, since, horizon) && Before(Raised(c, since), e.Place())
  {
    if es != [] {
      WaitingMembers(es[..|es| - 1], c, since, horizon);
      assert es == es[..|es| - 1] + [es[|es| - 1]];
    }
  }

  lemma {:induction false} NothingAfterLast(es: seq<Event>, last: Cursor, since: int, horizon: int)
    requires forall e | e in es :: !Before(last, e.Place())
    ensures Waiting(es, last, since, horizon) == []
  {
    if es != [] {
      assert es[|es| - 1] in es;
      NothingAfterLast(es[..|es| - 1], last, since, horizon);
    }
  }

  /** Moving the cursor to the `k`-th waiting row leaves exactly the rows behind it, also when rows share
      its timestamp. */
  lemma {:induction false} CursorCutsWaiting(es: seq<Event>, c: Cursor, since: int, horizon: int, k: nat)
    requires Sorted(es) && k < |Waiting(es, c, since, horizon)|
    ensures var w := Waiting(es, c, since, horizon); Waiting(es, w[k].Place(), since, horizon) == w[k + 1..]
  {
    var n := |es| - 1;
    var e := es[n];
    var front := Waiting(es[..n], c, since, horizon);
    var w := Waiting(es, c, since, horizon);
    WaitingMembers(es[..n], c, since, horizon);
    if k < |front| {
      CursorCutsWaiting(es[..n], c, since, horizon, k);
      assert w[k] == front[k] && front[k] in front;
      var i :| 0 <= i < n && es[..n][i] == front[k];
      assert Before(es[i].Place(), e.Place());
      CutFront(front, w, e, k);
    } else {
      assert w[k] == e && w[k + 1..] == [];
      forall x | x in es[..n] ensures !Before(e.Place(), x.Place()) {
        var i :| 0 <= i < n && es[..n][i] == x;
        assert Before(es[i].Place(), e.Place());
      }
      NothingAfterLast(es[..n], e.Place(), since, horizon);
    }
  }

  lemma CutFront(front: seq<Event>, w: seq<Event>, e: Event, k: nat)
    requires k < |front| && (w == front || w == front + [e])
    ensures w[k] == front[k] && w[k + 1..] == front[k + 1..] + if w == front then [] else [e]
  {
  }

  // ----- a reconciliation pass --------------------------------------------------------------

  function OfferEvents(ds: Deliveries, kind: Kind, es: seq<Event>, chats: seq<nat>, now: int): Deliveries {
    if es == [] then ds
    else OfferedTo(OfferEvents(ds, kind, es[..|es| - 1], chats, now), kind, es[|es| - 1], chats, now)
  }

  /** The newest rows of the overlap window, newest first. */
  function Overlap(es: seq<Event>, from: int, horizon: int, room: nat): seq<Event> {
    if es == [] || room == 0 then []
    else
      var e := es[|es| - 1];
      if InScope(e, from, horizon) then [e] + Overlap(es[..|es| - 1], from, horizon, room - 1)
      else Overlap(es[..|es| - 1], from, horizon, room)
  }

  datatype Scan = Scan(deliveries: Deliveries, cursor: Cursor)

  /** One pass for one kind: a batch after the cursor, then the overlap window again. */
  function Pass(s: Scan, kind: Kind, es: seq<Event>, chats: seq<nat>, since: int, overlapFrom: int, horizon: int, now: int): Scan {
    var batch := Batch(es, s.cursor, since, horizon);
    var offered := OfferEvents(s.deliveries, kind, batch, chats, now);
    Scan(OfferEvents(offered, kind, Overlap(es, overlapFrom, horizon, RECONCILE_BATCH), chats, now),
         if batch == [] then s.cursor else batch[|batch| - 1].Place())
  }

  function Passes(s: Scan, kind: Kind, es: seq<Event>, chats: seq<nat>, since: int, overlapFrom: int, horizon: int, now: int, n: nat): Scan {
    if n == 0 then s
    else Pass(Passes(s, kind, es, chats, since, overlapFrom, horizon, now, n - 1), kind, es, chats, since, overlapFrom, horizon, now)
  }

  /** Offering never touches a row that is there. */
  predicate OnlyAdds(a: Deliveries, b: Deliveries) {
    forall k | k in a :: k in b && b[k] == a[k]
  }

  lemma {:induction false} OfferOnlyAdds(ds: Deliveries, kind: Kind, e: Event, chats: seq<nat>, now: int)
    ensures var r := OfferedTo(ds, kind, e, chats, now);
      && OnlyAdds(ds, r)
      && (forall chat | chat in chats :: KeyOf(kind, e, chat) in r)
      && (forall k | k in r && k !in ds :: k.chat in chats && k == KeyOf(kind, e, k.chat))
  {
    if chats != [] {
      var n := |chats| - 1;
      OfferOnlyAdds(ds, kind, e, chats[..n], now);
      assert chats == chats[..n] + [chats[n]];
    }
  }

  lemma {:induction false} OffersOnlyAdd(ds: Deliveries, kind: Kind, es: seq<Event>, chats: seq<nat>, now: int)
    ensures var r := OfferEvents(ds, kind, es, chats, now);
      OnlyAdds(ds, r) && forall e, chat | e in es && chat in chats :: KeyOf(kind, e, chat) in r
  {
    if es != [] {
      var n := |es| - 1;
      OffersOnlyAdd(ds, kind, es[..n], chats, now);
      OfferOnlyAdds(OfferEvents(ds, kind, es[..n], chats, now), kind, es[n], chats, now);
      assert es == es[..n] + [es[n]];
      hide OfferedTo;
    }
  }

  /** Offering what is already there - a rescan, a re-save that moved no stamp, a repeat after a crash -
      changes nothing. */
  lemma {:induction false} RepeatChangesNothing(ds: Deliveries, kind: Kind, e: Event, chats: seq<nat>, now: int)
    requires forall chat | chat in chats :: KeyOf(kind, e, chat) in ds
    ensures OfferedTo(ds, kind, e, chats, now) == ds
  {
    if chats != [] {
      var n := |chats| - 1;
      assert chats[n] in chats;
      forall chat | chat in chats[..n] ensures chat in chats {}
      RepeatChangesNothing(ds, kind, e, chats[..n], now);
    }
  }

  lemma BatchCuts(es: seq<Event>, c: Cursor, since: int, horizon: int)
    requires Sorted(es)
    ensures var w, b := Waiting(es, c, since, horizon), Batch(es, c, since, horizon);
      && b == w[..Min(RECONCILE_BATCH, |w|)]
      && Waiting(es, if b == [] then c else b[|b| - 1].Place(), since, horizon) == w[Min(RECONCILE_BATCH, |w|)..]
  {
    var w, b := Waiting(es, c, since, horizon), Batch(es, c, since, horizon);
    if b != [] { CursorCutsWaiting(es, c, since, horizon, |b| - 1); }
  }

  predicate AllOffered(ds: Deliveries, kind: Kind, es: seq<Event>, chats: seq<nat>) {
    forall e, chat | e in es && chat in chats :: KeyOf(kind, e, chat) in ds
  }

  lemma OnlyAddsInTurn(a: Deliveries, b: Deliveries, c: Deliveries)
    requires OnlyAdds(a, b) && OnlyAdds(b, c)
    ensures OnlyAdds(a, c)
  {
  }

  lemma PassOffers(s: Scan, kind: Kind, es: seq<Event>, chats: seq<nat>, since: int, overlapFrom: int, horizon: int, now: int)
    requires Sorted(es)
    ensures var w, s' := Waiting(es, s.cursor, since, horizon), Pass(s, kind, es, chats, since, overlapFrom, horizon, now);
      var n := Min(RECONCILE_BATCH, |w|);
      && Waiting(es, s'.cursor, since, horizon) == w[n..]
      && OnlyAdds(s.deliveries, s'.deliveries)
      && AllOffered(s'.deliveries, kind, w[..n], chats)
  {
    hide Batch, OfferEvents, Overlap, Waiting;
    BatchCuts(es, s.cursor, since, horizon);
    var batch := Batch(es, s.cursor, since, horizon);
    var offered := OfferEvents(s.deliveries, kind, batch, chats, now);
    OffersOnlyAdd(s.deliveries, kind, batch, chats, now);
    OffersOnlyAdd(offered, kind, Overlap(es, overlapFrom, horizon, RECONCILE_BATCH), chats, now);
    OnlyAddsInTurn(s.deliveries, offered, Pass(s, kind, es, chats, since, overlapFrom, horizon, now).deliveries);
  }

  /** Passes over a fixed table offer the waiting rows in order, 250 at a time: after enough passes none
      waits, every one was offered to every recipient, and no row was ever disturbed. */
  lemma {:induction false} PassesCover(s: Scan, kind: Kind, es: seq<Event>, chats: seq<nat>, since: int, overlapFrom: int, horizon: int, now: int, n: nat)
    requires Sorted(es)
    ensures var w, s' := Waiting(es, s.cursor, since, horizon), Passes(s, kind, es, chats, since, overlapFrom, horizon, now, n);
      var done := Min(n * RECONCILE_BATCH, |w|);
      && Waiting(es, s'.cursor, since, horizon) == w[done..]
      && OnlyAdds(s.deliveries, s'.deliveries)
      && AllOffered(s'.deliveries, kind, w[..done], chats)
  {
    hide Waiting, Pass;
    var w := Waiting(es, s.cursor, since, horizon);
    if n > 0 {
      PassesCover(s, kind, es, chats, since, overlapFrom, horizon, now, n - 1);
      var before := Passes(s, kind, es, chats, since, overlapFrom, horizon, now, n - 1);
      var after := Pass(before, kind, es, chats, since, overlapFrom, horizon, now);
      PassOffers(before, kind, es, chats, since, overlapFrom, horizon, now);
      OnlyAddsInTurn(s.deliveries, before.deliveries, after.deliveries);
      var done, more := Min((n - 1) * RECONCILE_BATCH, |w|), Min(RECONCILE_BATCH, |w| - Min((n - 1) * RECONCILE_BATCH, |w|));
      assert done + more == Min(n * RECONCILE_BATCH, |w|);
      assert w[done..][more..] == w[done + more..];
      assert w[..done + more] == w[..done] + w[done..][..more];
    }
  }

  /** Raising a cursor hides a row behind it exactly when the cursor was older than the watermark, and the
      row stands at the watermark with a key that is not greater. */
  lemma RaisedHidesIff(c: Cursor, e: Event, since: int, horizon: int)
    requires InScope(e, since, horizon)
    ensures Before(c, e.Place()) && !Before(Raised(c, since), e.Place())
       <==> c.at < since && e.at == since && e.pk <= c.pk
  {
  }

  /** Every eligible row between the starting cursor, as it is read, and the horizon reaches the outbox. */
  lemma EveryEventIsOffered(s: Scan, kind: Kind, es: seq<Event>, chats: seq<nat>, since: int, overlapFrom: int, horizon: int, now: int, n: nat, e: Event, chat: nat)
    requires Sorted(es) && n * RECONCILE_BATCH >= |Waiting(es, s.cursor, since, horizon)|
    requires e in es && InScope(e, since, horizon) && Before(Raised(s.cursor, since), e.Place()) && chat in chats
    ensures KeyOf(kind, e, chat) in Passes(s, kind, es, chats, since, overlapFrom, horizon, now, n).deliveries
  {
    hide Waiting, Passes;
    PassesCover(s, kind, es, chats, since, overlapFrom, horizon, now, n);
    WaitingMembers(es, s.cursor, since, horizon);
    var w := Waiting(es, s.cursor, since, horizon);
    assert w[..|w|] == w;
  }
}
