/** Reconciliation and settlement as they run, one table scan after another. */
module CourierBooks {
  import opened Common
  import opened Text
  import opened PaymentRows
  import opened SettlementRows
  import M = SettlementMeaning

  datatype Entry = Entry(refund: Reversal, share: Share)

  /** The entry a refund makes in a window, unless it takes nothing from the courier. */
  function EntryOf(books: Books, c: nat, start: int, end: int, r: Reversal): seq<Entry> {
    var share := Attributed(books, c, r);
    if In(r.recordedAt, start, end) && share != NoShare() then [Entry(r, share)] else []
  }

  /** The refunds of a window that take something from the courier. */
  function Entries(books: Books, c: nat, start: int, end: int, n: nat): seq<Entry>
    requires n <= |books.reversals|
  {
    if n == 0 then [] else Entries(books, c, start, end, n - 1) + EntryOf(books, c, start, end, books.reversals[n - 1])
  }

  function Taken(entries: seq<Entry>): Sums {
    if entries == [] then NoSums()
    else
      var share := entries[|entries| - 1].share;
      Taken(entries[..|entries| - 1]).Plus(Sums(0, 0, -share.cash, -(share.card + share.payme)))
  }

  lemma TakenAppend(entries: seq<Entry>, e: Entry)
    ensures Taken(entries + [e]) == Taken(entries).Plus(Sums(0, 0, -e.share.cash, -(e.share.card + e.share.payme)))
  {
    assert (entries + [e])[..|entries|] == entries;
  }

  lemma EntryIsRefundRow(books: Books, c: nat, start: int, end: int, r: Reversal, before: seq<Entry>)
    ensures Taken(before + EntryOf(books, c, start, end, r)) == Taken(before).Plus(RefundRow(books, r, c, start, end))
  {
    hide Attributed;
    var share := Attributed(books, c, r);
    if EntryOf(books, c, start, end, r) == [] {
      assert before + [] == before;
    } else {
      TakenAppend(before, Entry(r, share));
    }
  }

  /** Summing the entries of a window is summing the refunds over it. */
  lemma {:induction false} EntriesAreRefundSums(books: Books, c: nat, start: int, end: int, n: nat)
    requires n <= |books.reversals|
    ensures Taken(Entries(books, c, start, end, n)) == RefundSums(books, c, start, end, n)
  {
    hide Attributed, RefundRow, EntryOf, Taken;
    if n > 0 {
      EntriesAreRefundSums(books, c, start, end, n - 1);
      EntryIsRefundRow(books, c, start, end, books.reversals[n - 1], Entries(books, c, start, end, n - 1));
    } else {
      NothingTaken();
    }
  }

  lemma NothingTaken()
    ensures Taken([]) == NoSums()
  {
  }

  lemma RelevantShare(books: Books, c: nat, r: Reversal)
    requires Relevant(books, c, r)
    ensures var share :=
        if r.source == ProviderRefund then
          var p := PaymentByKey(books.payments, c, r.sourceId);
          if p.None? then NoShare() else ProviderShare(p.value, r.amount)
        else CancelShare(books, c, r);
      Attributed(books, c, r) == if share.Total() <= 0 then NoShare() else share
  {
    hide PaymentByKey, CancelShare, Relevant;
  }

  class CourierBooks {
    var payments: seq<Payment>
    var reversals: seq<Reversal>
    var deliveries: seq<Delivery>
    var settlements: seq<Settlement>

    constructor (books: Books)
      ensures Value() == books
    {
      payments, reversals := books.payments, books.reversals;
      deliveries, settlements := books.deliveries, books.settlements;
    }

    function Value(): Books
      reads this
    {
      Books(payments, reversals, deliveries, settlements)
    }

    method PaymentsByKey(c: nat) returns (byKey: map<Text, Payment>)
      ensures forall key :: key in byKey <==> PaymentByKey(payments, c, key).Some?
      ensures forall key | key in byKey :: PaymentByKey(payments, c, key) == Some(byKey[key])
    {
      byKey := map[];
      for i := 0 to |payments|
        invariant forall key :: key in byKey <==> PaymentByKey(payments[..i], c, key).Some?
        invariant forall key | key in byKey :: PaymentByKey(payments[..i], c, key) == Some(byKey[key])
      {
        assert payments[..i + 1][..i] == payments[..i];
        if Counted(payments[i], c) {
          byKey := byKey[payments[i].key := payments[i]];
        }
      }
      assert payments[..|payments|] == payments;
    }

    method ProviderRefunds(keys: set<Text>) returns (prior: map<Text, Reversal>)
      ensures forall key | key in keys :: key in prior <==> PriorRefund(reversals, key).Some?
      ensures forall key | key in prior :: PriorRefund(reversals, key) == Some(prior[key])
    {
      prior := map[];
      for i := 0 to |reversals|
        invariant forall key | key in keys :: key in prior <==> PriorRefund(reversals[..i], key).Some?
        invariant forall key | key in prior :: key in keys && PriorRefund(reversals[..i], key) == Some(prior[key])
      {
        assert reversals[..i + 1][..i] == reversals[..i];
        var r := reversals[i];
        if r.source == ProviderRefund && !r.deleted && r.sourceId in keys {
          prior := prior[r.sourceId := r];
        }
      }
      assert reversals[..|reversals|] == reversals;
    }

    method OutstandingAt(c: nat, r: Reversal, prior: map<Text, Reversal>) returns (left: Share)
      requires forall p | p in payments && Counted(p, c) ::
        if p.key in prior then PriorRefund(reversals, p.key) == Some(prior[p.key])
        else PriorRefund(reversals, p.key).None?
      ensures left == Share(Outstanding(Value(), c, r, ByCash, |payments|),
                            Outstanding(Value(), c, r, ByCard, |payments|),
                            Outstanding(Value(), c, r, ByQr, |payments|))
    {
      left := NoShare();
      for i := 0 to |payments|
        invariant left == Share(Outstanding(Value(), c, r, ByCash, i),
                                Outstanding(Value(), c, r, ByCard, i),
                                Outstanding(Value(), c, r, ByQr, i))
      {
        hide PriorRefund;
        var p := payments[i];
        if Counted(p, c) && p.order == r.order {
          var remaining := p.amount;
          if p.key in prior && prior[p.key].recordedAt <= r.recordedAt {
            remaining := Max(remaining - prior[p.key].amount, 0);
          }
          assert remaining == Remaining(reversals, p, r);
          hide Remaining;
          match p.provider {
            case ByCash => left := left.(cash := left.cash + remaining);
            case ByCard => left := left.(card := left.card + remaining);
            case ByQr => left := left.(payme := left.payme + remaining);
            case UnknownProvider =>
          }
        }
      }
    }

    /** Only refunds of the courier's own keys and orders are looked at. */
    method Concerns(c: nat, r: Reversal) returns (yes: bool)
      ensures yes == Relevant(Value(), c, r)
    {
      yes := false;
      for i := 0 to |payments|
        invariant yes <==> !r.deleted && exists j | 0 <= j < i ::
          (&& payments[j].courier == Some(c)
           && (|| (r.source == ProviderRefund && payments[j].key == r.sourceId)
               || (r.source == OrderCancel && payments[j].order == r.order)))
      {
        var p := payments[i];
        if !r.deleted && p.courier == Some(c)
           && ((r.source == ProviderRefund && p.key == r.sourceId)
               || (r.source == OrderCancel && p.order == r.order)) {
          yes := true;
        }
      }
    }

    method ShareOf(c: nat, r: Reversal, byKey: map<Text, Payment>, prior: map<Text, Reversal>) returns (share: Share)
      requires forall key :: key in byKey <==> PaymentByKey(payments, c, key).Some?
      requires forall key | key in byKey :: PaymentByKey(payments, c, key) == Some(byKey[key])
      requires forall p | p in payments && Counted(p, c) ::
        if p.key in prior then PriorRefund(reversals, p.key) == Some(prior[p.key])
        else PriorRefund(reversals, p.key).None?
      requires Relevant(Value(), c, r)
      ensures Attributed(Value(), c, r) == if share.Total() <= 0 then NoShare() else share
    {
      hide PriorRefund, PaymentByKey, Attributed, Relevant, Outstanding;
      RelevantShare(Value(), c, r);
      share := NoShare();
      if r.source == ProviderRefund {
        if r.sourceId in byKey {
          share := ProviderShare(byKey[r.sourceId], r.amount);
        }
      } else {
        var left := OutstandingAt(c, r, prior);
        var held := Max(r.cash - r.drawerCash, 0);
        share := Share(Min(held, left.cash), Min(r.card, left.card), Min(r.payme, left.payme));
      }
    }

    method RefundEntries(c: nat, start: int, end: int) returns (entries: seq<Entry>)
      ensures entries == Entries(Value(), c, start, end, |reversals|)
    {
      hide PriorRefund, PaymentByKey, Attributed;
      var byKey := PaymentsByKey(c);
      var prior := ProviderRefunds(byKey.Keys);
      assert forall p | p in payments && Counted(p, c) :: p.key in byKey by {
        forall p | p in payments && Counted(p, c) ensures p.key in byKey {
          CountedIsKeyed(p, c);
        }
      }
      entries := [];
      for i := 0 to |reversals|
        invariant entries == Entries(Value(), c, start, end, i)
      {
        var r := reversals[i];
        if In(r.recordedAt, start, end) {
          var concerns := Concerns(c, r);
          if concerns {
            var share := ShareOf(c, r, byKey, prior);
            if share.Total() > 0 {
              entries := entries + [Entry(r, share)];
            }
          } else {
            Unconcerned(c, r);
          }
        }
      }
    }

    lemma Unconcerned(c: nat, r: Reversal)
      requires !Relevant(Value(), c, r)
      ensures Attributed(Value(), c, r) == NoShare()
    {
    }

    lemma CountedIsKeyed(p: Payment, c: nat)
      requires p in payments && Counted(p, c)
      ensures PaymentByKey(payments, c, p.key).Some?
    {
      AnyCountedIsKeyed(payments, p, c);
    }

    static lemma {:induction false} AnyCountedIsKeyed(ps: seq<Payment>, p: Payment, c: nat)
      requires p in ps && Counted(p, c)
      ensures PaymentByKey(ps, c, p.key).Some?
    {
      if p != ps[|ps| - 1] {
        assert ps == ps[..|ps| - 1] + [ps[|ps| - 1]];
        AnyCountedIsKeyed(ps[..|ps| - 1], p, c);
      }
    }

    method Deliveries(c: nat, start: int, end: int) returns (done: int, fees: int)
      ensures Sums(done, fees, 0, 0) == DeliverySums(deliveries, c, start, end, |deliveries|)
    {
      done, fees := 0, 0;
      for i := 0 to |deliveries|
        invariant Sums(done, fees, 0, 0) == DeliverySums(deliveries, c, start, end, i)
      {
        var d := deliveries[i];
        if d.courier == Some(c) && d.delivered && d.deliveredAt.Some? && In(d.deliveredAt.value, start, end) {
          done, fees := done + 1, fees + d.fee;
        }
      }
    }

    method Payments(c: nat, start: int, end: int) returns (cash: int, qr: int)
      ensures Sums(0, 0, cash, qr) == PaySums(payments, c, start, end, |payments|)
    {
      cash, qr := 0, 0;
      for i := 0 to |payments|
        invariant Sums(0, 0, cash, qr) == PaySums(payments, c, start, end, i)
      {
        var p := payments[i];
        if Counted(p, c) && In(p.paidAt.value, start, end) {
          if p.provider == ByCash {
            cash := cash + p.amount;
          } else {
            qr := qr + p.amount;
          }
        }
      }
    }

    method ReconciliationSnapshot(c: nat, start: int, end: int) returns (sums: Sums)
      ensures sums == Snapshot(Value(), c, start, end)
      ensures M.Reconciles(Value(), c, start, end, sums)
    {
      M.SnapshotReconciles(Value(), c, start, end);
      hide Attributed, Entries, PaySums, DeliverySums, RefundSums;
      var done, fees := Deliveries(c, start, end);
      var cash, qr := Payments(c, start, end);
      var entries := RefundEntries(c, start, end);
      EntriesAreRefundSums(Value(), c, start, end, |reversals|);
      ghost var collected := Sums(0, 0, cash, qr);
      NothingTaken();
      hide Taken;
      for i := 0 to |entries|
        invariant Sums(0, 0, cash, qr) == collected.Plus(Taken(entries[..i]))
      {
        assert entries[..i + 1] == entries[..i] + [entries[i]];
        TakenAppend(entries[..i], entries[i]);
        cash := cash - entries[i].share.cash;
        qr := qr - (entries[i].share.card + entries[i].share.payme);
      }
      assert entries[..|entries|] == entries;
      sums := Sums(done, fees, cash, qr);
    }

    method UnsettledFrom(c: nat, midnight: int) returns (start: int)
      ensures start == UnsettledStart(Value(), c, midnight)
    {
      var last: Option<int> := None;
      for i := 0 to |settlements|
        invariant last == LastEnd(settlements[..i], c)
      {
        assert settlements[..i + 1][..i] == settlements[..i];
        if settlements[i].courier == c {
          last := Later(last, Some(settlements[i].end));
        }
      }
      assert settlements[..|settlements|] == settlements;
      if last.Some? {
        return last.value;
      }
      var firstPay: Option<int> := None;
      for i := 0 to |payments|
        invariant firstPay == FirstPay(payments[..i], c)
      {
        assert payments[..i + 1][..i] == payments[..i];
        if Counted(payments[i], c) {
          firstPay := Earlier(firstPay, payments[i].paidAt);
        }
      }
      assert payments[..|payments|] == payments;
      var firstDelivery: Option<int> := None;
      for i := 0 to |deliveries|
        invariant firstDelivery == FirstDelivery(deliveries[..i], c)
      {
        assert deliveries[..i + 1][..i] == deliveries[..i];
        var d := deliveries[i];
        if d.courier == Some(c) && d.delivered && d.deliveredAt.Some? {
          firstDelivery := Earlier(firstDelivery, d.deliveredAt);
        }
      }
      assert deliveries[..|deliveries|] == deliveries;
      start := Earlier(firstPay, firstDelivery).GetOr(midnight);
    }

    /** Close the unsettled window; everything before `now` is settled. */
    method Close(c: nat, now: int, midnight: int, bonuses: int, tips: int) returns (row: Settlement)
      modifies this
      ensures Value() == Settle(old(Value()), c, now, midnight, bonuses, tips)
      ensures row == settlements[|settlements| - 1] && row.end == now && M.Reconciles(old(Value()), c, row.start, now, row.sums)
    {
      hide Snapshot, UnsettledStart;
      var start := UnsettledFrom(c, midnight);
      var sums := ReconciliationSnapshot(c, start, now);
      row := Settlement(c, start, now, sums, bonuses, tips, sums.fees + bonuses + tips);
      settlements := settlements + [row];
    }
  }
}
