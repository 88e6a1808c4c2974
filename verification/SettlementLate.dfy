/** A collection on an order whose cancellation was already refunded: when it changes what was settled. */
module SettlementLate {
  import opened Common
  import opened Text
  import opened PaymentRows
  import F = PaymentFold
  import opened PaymentTransactions
  import opened PaymentRuns
  import opened PaymentReplay
  import opened PaymentBranches
  import opened SettlementRows
  import opened SettlementTheorems
  import opened SettlementRefunds
  import opened SettlementLedger

  /** Payment `i` becomes counted for the courier at `t`, as a new row or a pending one; nothing else
      changes. */
  ghost predicate NewlyCounts(a: Books, b: Books, c: nat, i: nat, t: int) {
    && Grown(a, b, t) && b == a.(payments := b.payments)
    && i < |b.payments| && Counted(b.payments[i], c) && b.payments[i].paidAt == Some(t) && b.payments[i].amount > 0
    && (i < |a.payments| ==> forall x :: !Counted(a.payments[i], x))
    && i <= |a.payments|
    && (forall j | 0 <= j < |b.payments| && j != i :: j < |a.payments| && b.payments[j] == a.payments[j])
    && PriorRefund(a.reversals, b.payments[i].key).None?
  }

  /** Amounts and frozen buckets are not negative. */
  ghost predicate Positive(books: Books) {
    && (forall p | p in books.payments :: p.amount >= 0)
    && (forall r | r in books.reversals && r.source == OrderCancel :: r.card >= 0 && r.payme >= 0)
  }

  lemma {:induction false} OutstandingGrows(a: Books, b: Books, c: nat, i: nat, t: int, r: Reversal, via: Provider, n: nat)
    requires NewlyCounts(a, b, c, i, t) && n <= |b.payments|
    ensures var p := b.payments[i];
      Outstanding(b, c, r, via, n) == Outstanding(a, c, r, via, if n <= |a.payments| then n else |a.payments|)
        + if i < n && p.order == r.order && p.provider == via then Remaining(a.reversals, p, r) else 0
  {
    hide Remaining, Grown, PriorRefund;
    if n > 0 {
      OutstandingGrows(a, b, c, i, t, r, via, n - 1);
    }
  }

  /** The one bucket that a later collection can move. */
  lemma BucketMovesIff(a: Books, b: Books, c: nat, i: nat, t: int, r: Reversal, via: Provider)
    requires NewlyCounts(a, b, c, i, t) && Sound(a) && Positive(a)
    requires r in a.reversals && r.source == OrderCancel && !r.deleted && r.recordedAt < t
    ensures var p := b.payments[i];
      var before, after := Min(FrozenBucket(r, via), Outstanding(a, c, r, via, |a.payments|)),
                           Min(FrozenBucket(r, via), Outstanding(b, c, r, via, |b.payments|));
      && 0 <= before <= after
      && (before != after <==> p.order == r.order && p.provider == via && !Spent(a.payments, a.reversals, c, r, via))
  {
    hide Outstanding, EarlyOutstanding, Grown, Sound, PriorRefund, Counted;
    var p := b.payments[i];
    NotFewer(a, b, c, i, t);
    OutstandingGrows(a, b, c, i, t, r, via, |b.payments|);
    OutstandingNotNegative(a, c, r, via, |a.payments|);
    SpentOrEarly(a, c, r, via);
    assert Remaining(a.reversals, p, r) == p.amount > 0;
  }

  /** A cancellation with room took from early collections only. */
  lemma SpentOrEarly(a: Books, c: nat, r: Reversal, via: Provider)
    requires Sound(a) && Positive(a) && r in a.reversals && r.source == OrderCancel && !r.deleted
    ensures var early, all := EarlyOutstanding(a.payments, a.reversals, c, r, via, |a.payments|), Outstanding(a, c, r, via, |a.payments|);
      early <= all && (early == all || Spent(a.payments, a.reversals, c, r, via))
  {
    SoundIsSpent(a, c, r);
    hide Outstanding, EarlyOutstanding, Sound, Spent;
    OutstandingIsEarly(a, c, r, via, |a.payments|);
    assert a.payments[..|a.payments|] == a.payments;
  }

  /** Not a refund at all, or one that keeps its share. */
  lemma CancelMovesIff(a: Books, b: Books, c: nat, i: nat, t: int, r: Reversal)
    requires NewlyCounts(a, b, c, i, t) && Sound(a) && Positive(a)
    requires r in a.reversals && r.source == OrderCancel && !r.deleted && r.recordedAt < t
    ensures var p, x, y := b.payments[i], CancelShare(a, c, r), CancelShare(b, c, r);
      && 0 <= x.cash <= y.cash && 0 <= x.card <= y.card && 0 <= x.payme <= y.payme
      && (x != y <==> p.order == r.order && !Spent(a.payments, a.reversals, c, r, p.provider))
  {
    BucketMovesIff(a, b, c, i, t, r, ByCash);
    BucketMovesIff(a, b, c, i, t, r, ByCard);
    BucketMovesIff(a, b, c, i, t, r, ByQr);
    UnknownIsSpent(a, c, r);
    hide Outstanding, NewlyCounts, Sound, Spent;
  }

  lemma UnknownIsSpent(a: Books, c: nat, r: Reversal)
    requires Positive(a)
    ensures Spent(a.payments, a.reversals, c, r, UnknownProvider)
  {
    EarlyNotNegative(a.payments, a.reversals, c, r, UnknownProvider, |a.payments|);
    hide EarlyOutstanding;
  }

  lemma {:induction false} EarlyNotNegative(ps: seq<Payment>, rs: seq<Reversal>, c: nat, r: Reversal, via: Provider, n: nat)
    requires n <= |ps| && forall p | p in ps :: p.amount >= 0
    ensures EarlyOutstanding(ps, rs, c, r, via, n) >= 0
  {
    if n > 0 { EarlyNotNegative(ps, rs, c, r, via, n - 1); }
  }

  lemma ByKeyUntouched(a: Books, b: Books, c: nat, i: nat, t: int, r: Reversal)
    requires NewlyCounts(a, b, c, i, t) && r in a.reversals && r.source == ProviderRefund && !r.deleted
    ensures PaymentByKey(a.payments, c, r.sourceId) == PaymentByKey(b.payments, c, r.sourceId)
  {
    PriorFinds(a.reversals, b.payments[i].key);
    ByKeyFinds(a.payments, c, r.sourceId);
    ByKeyFinds(b.payments, c, r.sourceId);
    hide PaymentByKey, PriorRefund;
    var x, y := PaymentByKey(a.payments, c, r.sourceId), PaymentByKey(b.payments, c, r.sourceId);
    if x.Some? {
      CountedStays(a, b, c, x.value, t);
      ByKeyIs(b, c, x.value);
    }
    if y.Some? {
      var j :| 0 <= j < |b.payments| && b.payments[j] == y.value;
      assert a.payments[j] in a.payments;
    }
  }

  /** A settled refund that a later collection changes: a cancellation of its order with room left. */
  ghost predicate Moves(a: Books, c: nat, p: Payment, r: Reversal, start: int, end: int) {
    && r.source == OrderCancel && !r.deleted && r.order == p.order && In(r.recordedAt, start, end)
    && !Spent(a.payments, a.reversals, c, r, p.provider)
  }

  lemma RowMovesIff(a: Books, b: Books, c: nat, i: nat, t: int, r: Reversal, start: int, end: int)
    requires NewlyCounts(a, b, c, i, t) && Sound(a) && Positive(a) && r in a.reversals && end <= t
    ensures var x, y := RefundRow(a, r, c, start, end), RefundRow(b, r, c, start, end);
      && x.deliveries == y.deliveries == 0 && x.fees == y.fees == 0 && y.cash <= x.cash && y.qr <= x.qr
      && (y.cash + y.qr < x.cash + x.qr <==> Moves(a, c, b.payments[i], r, start, end))
  {
    hide Attributed, CancelShare, PaymentByKey, Spent, Sound, Positive, NewlyCounts;
    if In(r.recordedAt, start, end) {
      AttributedIsRaw(a, c, r);
      AttributedIsRaw(b, c, r);
      if r.deleted || r.source == OtherSource {
      } else if r.source == ProviderRefund {
        ByKeyUntouched(a, b, c, i, t, r);
      } else {
        CancelMovesIff(a, b, c, i, t, r);
      }
    }
  }

  lemma {:induction false} RowsMoveIff(a: Books, b: Books, c: nat, i: nat, t: int, start: int, end: int, n: nat)
    requires NewlyCounts(a, b, c, i, t) && Sound(a) && Positive(a) && n <= |a.reversals| && end <= t
    ensures b.reversals == a.reversals
    ensures var x, y := RefundSums(a, c, start, end, n), RefundSums(b, c, start, end, n);
      && x.deliveries == y.deliveries && x.fees == y.fees && y.cash <= x.cash && y.qr <= x.qr
      && (x != y <==> exists k :: 0 <= k < n && Moves(a, c, b.payments[i], a.reversals[k], start, end))
  {
    hide RefundRow, Sound, Positive, Moves, Grown, PriorRefund;
    if n > 0 {
      RowsMoveIff(a, b, c, i, t, start, end, n - 1);
      assert a.reversals[n - 1] in a.reversals;
      RowMovesIff(a, b, c, i, t, a.reversals[n - 1], start, end);
    }
  }

  lemma OnlyRefundsMove(a: Books, b: Books, c: nat, i: nat, t: int, start: int, end: int)
    requires NewlyCounts(a, b, c, i, t) && end <= t
    ensures |b.reversals| == |a.reversals|
    ensures Snapshot(a, c, start, end) != Snapshot(b, c, start, end)
       <==> RefundSums(a, c, start, end, |a.reversals|) != RefundSums(b, c, start, end, |b.reversals|)
  {
    hide PaySums, DeliverySums, RefundSums, PriorRefund, Consistent, PaymentsAdvance;
    assert |a.payments| <= |b.payments| by { NotFewer(a, b, c, i, t); }
    PaySumsStable(a.payments, b.payments, c, start, end, t, |b.payments|);
  }

  lemma NotFewer(a: Books, b: Books, c: nat, i: nat, t: int)
    requires NewlyCounts(a, b, c, i, t)
    ensures |a.payments| <= |b.payments|
  {
    hide PriorRefund;
  }

  /** A collection made after a window ended changes that window's reconciliation - and so contradicts a
      settlement that froze it - exactly when the window holds a cancellation of its order that still has
      room in the collection's bucket. */
  lemma SettledWindowMovesIff(a: Books, b: Books, c: nat, i: nat, t: int, start: int, end: int)
    requires NewlyCounts(a, b, c, i, t) && Sound(a) && Positive(a) && end <= t
    ensures Snapshot(a, c, start, end) != Snapshot(b, c, start, end)
       <==> exists r :: r in a.reversals && Moves(a, c, b.payments[i], r, start, end)
  {
    hide Snapshot, RefundSums, Moves, Sound, Positive, Grown, PriorRefund, Counted;
    RowsMoveIff(a, b, c, i, t, start, end, |a.reversals|);
    OnlyRefundsMove(a, b, c, i, t, start, end);
    if r :| r in a.reversals && Moves(a, c, b.payments[i], r, start, end) {
      var k :| 0 <= k < |a.reversals| && a.reversals[k] == r;
      assert Moves(a, c, b.payments[i], a.reversals[k], start, end);
    }
    if k :| 0 <= k < |a.reversals| && Moves(a, c, b.payments[i], a.reversals[k], start, end) {
      assert a.reversals[k] in a.reversals;
    }
  }

  // ----- and the ledger lets it through -------------------------------------------------------

  /** An order of 100, half of it paid by card at the till, cancelled and refunded at 2. */
  function CancelledDb(c: nat, branch: Text): Db {
    Db(map[0 := Order(branch, 100, true, Some(c), [], false, None, None, None)],
       [Till(0, branch, UZCARD, 50, 1, false)], [], [],
       [Reversal(OrderCancel, [], 0, 50, 0, 0, 50, 0, 2, false)])
  }

  lemma CancelledHasRoom(c: nat, branch: Text)
    ensures CapacityError(CancelledDb(c, branch), 0, 50).None?
  {
    var db := CancelledDb(c, branch);
    assert db.tills == [] + [db.tills[0]];
    F.TillAppend([], db.tills[0], 0, branch);
    F.NoRows(0, branch, {});
  }

  lemma CancelledIsSound(c: nat, branch: Text)
    ensures var a := BooksOf(CancelledDb(c, branch), [], []); Sound(a) && Positive(a)
  {
  }

  /** The courier settles the window that holds the cancellation, then records the other half by card on
      the cancelled order: the create is accepted, and the settled window no longer reads as it was
      settled. */
  lemma LateCollectionIsAccepted(c: nat, branch: Text, key: Text, hash: Text -> Text)
    requires Strip(branch) != [] && key != [] && Stripped(key) && |key| <= 128
    ensures var db, req := CancelledDb(c, branch), Request(Some(c), 0, ByCard, Given(50), key);
      var step := Create(db, hash, req, 4);
      var a, b := BooksOf(db, [], []), BooksOf(step.db, [], []);
      && Valid(db) && Sound(a) && step.reply.Accepted?
      && Snapshot(a, c, 0, 3) != Snapshot(b, c, 0, 3)
  {
    hide PaymentEvidence, CapacityError, Strip, Create, CleanKey, Snapshot, Sound, Positive;
    var db, req := CancelledDb(c, branch), Request(Some(c), 0, ByCard, Given(50), key);
    var a, b := BooksOf(db, [], []), BooksOf(Create(db, hash, req, 4).db, [], []);
    CancelledHasRoom(c, branch);
    CancelledIsSound(c, branch);
    CleanKeyIs(key);
    BlankIsBlank(branch);
    NewIsAccepted(db, hash, req, 4);
    LateIsNew(a, b, c);
    SettledWindowMovesIff(a, b, c, 0, 4, 0, 3);
    assert Moves(a, c, b.payments[0], a.reversals[0], 0, 3) && a.reversals[0] in a.reversals;
  }

  /** The first payment of the books, at 4. */
  lemma LateIsNew(a: Books, b: Books, c: nat)
    requires a.payments == [] && |b.payments| == 1 && b == a.(payments := b.payments)
    requires var p := b.payments[0]; Counted(p, c) && p.paidAt == Some(4) && p.amount > 0
    requires |a.reversals| == 1 && a.reversals[0].source == OrderCancel
    ensures NewlyCounts(a, b, c, 0, 4)
  {
    PriorFinds(a.reversals, b.payments[0].key);
  }
}
