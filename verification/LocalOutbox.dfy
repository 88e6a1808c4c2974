/** The outbox and its scan as they run. */
module LocalOutbox {
  import opened Common
  import opened Outbox

  /** The claim order of due rows: oldest first, ties by event and recipient. */
  predicate Older(a: Delivery, ka: Key, b: Delivery, kb: Key) {
    || a.createdAt < b.createdAt
    || (a.createdAt == b.createdAt && KeyBefore(ka, kb))
  }

  function KindRank(kind: Kind): nat {
    match kind case OrderRecorded => 0 case OrderPaid => 1 case ShiftEnded => 2
  }

  predicate KeyBefore(a: Key, b: Key) {
    || KindRank(a.kind) < KindRank(b.kind)
    || (a.kind == b.kind && (a.pk < b.pk || (a.pk == b.pk && (StampBefore(a.stamp, b.stamp) || (a.stamp == b.stamp && a.chat < b.chat)))))
  }

  predicate StampBefore(a: Stamp, b: Stamp) {
    match (a, b)
    case (NoStamp, ActionStamp(_)) => true
    case (NoStamp, TimeStamp(_)) => true
    case (ActionStamp(i), ActionStamp(j)) => i < j
    case (ActionStamp(_), TimeStamp(_)) => true
    case (TimeStamp(t), TimeStamp(u)) => t < u
    case _ => false
  }

  /** Due, and neither its kind nor its recipient is paused. */
  predicate Wanted(ds: Deliveries, k: Key, kinds: set<Kind>, chats: set<nat>, now: int) {
    k in ds && Claimable(ds[k], now) && k.kind in kinds && k.chat in chats
  }

  class LocalOutbox {
    var deliveries: Deliveries
    var cursors: map<Kind, Cursor>

    constructor ()
      ensures deliveries == map[] && cursors == map[]
    {
      deliveries, cursors := map[], map[];
    }

    method InsertDelivery(k: Key, now: int, delay: int) returns (inserted: bool)
      modifies this`deliveries
      ensures deliveries == Inserted(old(deliveries), k, now, delay)
      ensures inserted == (k !in old(deliveries))
    {
      inserted := k !in deliveries;
      if inserted {
        deliveries := deliveries[k := Delivery(Pending, 0, now + Max(0, delay), now, None)];
      }
    }

    /** Claim the oldest row that is due and not paused; pausing discards nothing. */
    method NextDelivery(kinds: set<Kind>, chats: set<nat>, now: int) returns (claimed: Option<Key>)
      modifies this`deliveries
      ensures claimed.None? ==> deliveries == old(deliveries) && forall k :: !Wanted(old(deliveries), k, kinds, chats, now)
      ensures claimed.Some? ==>
        && Wanted(old(deliveries), claimed.value, kinds, chats, now)
        && (forall k | Wanted(old(deliveries), k, kinds, chats, now) ::
              !Older(old(deliveries)[k], k, old(deliveries)[claimed.value], claimed.value))
        && deliveries == old(deliveries)[claimed.value := old(deliveries)[claimed.value].(state := Sending)]
    {
      claimed := None;
      var left := deliveries.Keys;
      while left != {}
        invariant left <= deliveries.Keys && deliveries == old(deliveries)
        invariant claimed.None? ==> forall k | k in deliveries && k !in left :: !Wanted(deliveries, k, kinds, chats, now)
        invariant claimed.Some? ==>
          && Wanted(deliveries, claimed.value, kinds, chats, now)
          && forall k | k in deliveries && k !in left && Wanted(deliveries, k, kinds, chats, now) ::
               !Older(deliveries[k], k, deliveries[claimed.value], claimed.value)
      {
        var k :| k in left;
        left := left - {k};
        if Wanted(deliveries, k, kinds, chats, now) {
          if claimed.None? || Older(deliveries[k], k, deliveries[claimed.value], claimed.value) {
            claimed := Some(k);
          }
        }
      }
      if claimed.Some? {
        deliveries := deliveries[claimed.value := deliveries[claimed.value].(state := Sending)];
      }
    }

    method ConfirmSent(k: Key, now: int)
      modifies this`deliveries
      ensures deliveries == MarkedSent(old(deliveries), k, now)
    {
      if k in deliveries {
        deliveries := deliveries[k := deliveries[k].(state := Sent, sentAt := Some(now))];
      }
      ghost var marked := deliveries;
      var left := deliveries.Keys;
      while left != {}
        invariant left <= deliveries.Keys <= marked.Keys
        invariant forall x | x in marked :: x in deliveries <==> x in left || !Expired(marked[x], now)
        invariant forall x | x in deliveries :: deliveries[x] == marked[x]
      {
        var x :| x in left;
        left := left - {x};
        if Expired(deliveries[x], now) {
          deliveries := deliveries - {x};
        }
      }
    }

    method ConfirmFailed(k: Key, attempts: nat, now: int)
      modifies this`deliveries
      ensures deliveries == MarkedFailed(old(deliveries), k, attempts, now)
    {
      var delay := 5;
      var doublings := Min(attempts, 10);
      for i := 0 to doublings
        invariant delay == 5 * PowerOfTwo(i)
      {
        delay := 2 * delay;
      }
      if k in deliveries {
        deliveries := deliveries[k := deliveries[k].(state := Failed, attempts := attempts + 1, nextAt := now + Min(MAX_RETRY, delay))];
      }
    }

    /** Rows claimed just before a crash are due again. */
    method ResetInflight()
      modifies this`deliveries
      ensures deliveries == Recovered(old(deliveries))
    {
      var left := deliveries.Keys;
      while left != {}
        invariant left <= deliveries.Keys == old(deliveries).Keys
        invariant forall k | k in deliveries :: deliveries[k] == if k in left then old(deliveries)[k] else Recovered(old(deliveries))[k]
      {
        var k :| k in left;
        left := left - {k};
        if deliveries[k].state == Sending {
          deliveries := deliveries[k := deliveries[k].(state := Pending)];
        }
      }
    }

    method Enqueue(kind: Kind, e: Event, chats: seq<nat>, now: int)
      modifies this`deliveries
      ensures deliveries == OfferedTo(old(deliveries), kind, e, chats, now)
    {
      for i := 0 to |chats|
        invariant deliveries == OfferedTo(old(deliveries), kind, e, chats[..i], now)
      {
        assert chats[..i + 1][..i] == chats[..i];
        var _ := InsertDelivery(KeyOf(kind, e, chats[i]), now, DelayOf(kind));
      }
      assert chats[..|chats|] == chats;
    }

    static method SelectBatch(es: seq<Event>, c: Cursor, since: int, horizon: int) returns (rows: seq<Event>)
      ensures rows == Batch(es, c, since, horizon)
    {
      rows := [];
      for i := 0 to |es|
        invariant rows == Waiting(es[..i], c, since, horizon)
      {
        assert es[..i + 1][..i] == es[..i];
        if InScope(es[i], since, horizon) && Before(Raised(c, since), es[i].Place()) {
          rows := rows + [es[i]];
        }
      }
      assert es[..|es|] == es;
      if |rows| > RECONCILE_BATCH {
        rows := rows[..RECONCILE_BATCH];
      }
    }

    static method SelectOverlap(es: seq<Event>, from: int, horizon: int) returns (rows: seq<Event>)
      ensures rows == Overlap(es, from, horizon, RECONCILE_BATCH)
    {
      rows := [];
      var n := |es|;
      assert es[..n] == es;
      while n > 0 && |rows| < RECONCILE_BATCH
        invariant n <= |es| && |rows| <= RECONCILE_BATCH
        invariant Overlap(es, from, horizon, RECONCILE_BATCH) == rows + Overlap(es[..n], from, horizon, RECONCILE_BATCH - |rows|)
      {
        n := n - 1;
        assert es[..n + 1][..n] == es[..n];
        if InScope(es[n], from, horizon) {
          OneMore(rows, es[n], Overlap(es[..n], from, horizon, RECONCILE_BATCH - |rows| - 1));
          rows := rows + [es[n]];
        }
      }
      assert rows + [] == rows;
    }

    static lemma OneMore(a: seq<Event>, e: Event, b: seq<Event>)
      ensures a + ([e] + b) == (a + [e]) + b
    {
    }

    /** One reconciliation pass: enqueue each row, then move the cursor past it. */
    method Reconcile(kind: Kind, es: seq<Event>, chats: seq<nat>, since: int, overlapFrom: int, horizon: int, now: int)
      modifies this
      ensures var c := if kind in old(cursors) then old(cursors)[kind] else Cursor(since, 0);
        var s := Pass(Scan(old(deliveries), c), kind, es, chats, since, overlapFrom, horizon, now);
        && deliveries == s.deliveries
        && (if kind in cursors then cursors[kind] else Cursor(since, 0)) == s.cursor
    {
      var c := if kind in cursors then cursors[kind] else Cursor(since, 0);
      var rows := SelectBatch(es, c, since, horizon);
      for i := 0 to |rows|
        invariant deliveries == OfferEvents(old(deliveries), kind, rows[..i], chats, now)
        invariant (if kind in cursors then cursors[kind] else Cursor(since, 0)) == if i == 0 then c else rows[i - 1].Place()
      {
        assert rows[..i + 1][..i] == rows[..i];
        Enqueue(kind, rows[i], chats, now);
        cursors := cursors[kind := rows[i].Place()];
      }
      assert rows[..|rows|] == rows;
      ghost var offered := deliveries;
      var again := SelectOverlap(es, overlapFrom, horizon);
      hide Batch, Overlap;
      for i := 0 to |again|
        invariant deliveries == OfferEvents(offered, kind, again[..i], chats, now)
        invariant (if kind in cursors then cursors[kind] else Cursor(since, 0)) == if rows == [] then c else rows[|rows| - 1].Place()
      {
        assert again[..i + 1][..i] == again[..i];
        Enqueue(kind, again[i], chats, now);
      }
      assert again[..|again|] == again;
    }
  }
}
