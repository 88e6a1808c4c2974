/** The collection ledger and dispatch only do work that settlement runs allow for. */
module SettlementLedger {
  import opened Common
  import opened Text
  import opened PaymentRows
  import opened PaymentTransactions
  import opened PaymentRuns
  import opened PaymentUnique
  import opened SettlementRows
  import opened SettlementTheorems
  import D = Dispatch

  // ----- payments ---------------------------------------------------------------------------

  /** Collected rows stay as they are; a row becomes counted at `t` exactly. */
  ghost predicate PaymentsMove(a: seq<Payment>, b: seq<Payment>, t: int) {
    && |a| <= |b|
    && (forall i | 0 <= i < |a| ::
          && b[i].courier == a[i].courier && b[i].order == a[i].order && b[i].key == a[i].key
          && (a[i].Collected() ==> b[i] == a[i]))
    && (forall i, c | 0 <= i < |b| && Counted(b[i], c) && !(i < |a| && Counted(a[i], c)) ::
          b[i].paidAt == Some(t) && b[i].amount > 0)
  }

  lemma SameAdvances(a: seq<Payment>, t: int)
    ensures PaymentsMove(a, a, t)
  {
  }

  lemma RowAdvances(a: seq<Payment>, pk: nat, p: Payment, t: int)
    requires pk < |a| && a[pk].status == Pending
    requires p == a[pk].(status := p.status, paidAt := p.paidAt)
    requires (p.status == Failed && p.paidAt == a[pk].paidAt) || (p.paidAt == Some(t) && p.amount > 0)
    ensures PaymentsMove(a, a[pk := p], t)
  {
  }

  lemma AppendAdvances(a: seq<Payment>, p: Payment, t: int)
    requires p.paidAt == Some(t) && p.amount > 0
    ensures PaymentsMove(a, a + [p], t)
  {
  }

  lemma ConfirmPayments(before: Db, db: Db, pk: nat, o: nat, accounted: Option<int>, now: int, emits: bool)
    requires pk < |db.payments| && o in db.orders
    ensures var ps := Confirm(before, db, pk, o, accounted, now, emits).db.payments;
      ps == before.payments || (ps == db.payments && db.payments[pk].amount > 0)
  {
    hide PaymentEvidence, Header, FindExt, Strip, ExistingRefund;
  }

  lemma CollectAdvances(
    db: Db, o: nat, courier: Option<nat>, provider: Provider, amount: int, key: Text, now: int)
    requires o in db.orders
    ensures PaymentsMove(db.payments, Collect(db, o, courier, provider, amount, key, now).db.payments, now)
  {
    hide PaymentEvidence, Confirm, Header, CapacityError, IdentityError, PaymentsMove;
    SameAdvances(db.payments, now);
    match FindKey(db.payments, key)
    case Some(pk) =>
      ConfirmPayments(db, db, pk, o, Some(now), now, false);
      ConfirmPayments(db, MarkPaid(db, pk, now), pk, o, Some(now), now, true);
      if db.payments[pk].status == Pending && db.payments[pk].amount > 0 {
        RowAdvances(db.payments, pk, MarkPaid(db, pk, now).payments[pk], now);
      }
    case None =>
      var p := NewPayment(db, o, courier, provider, amount, key, now);
      if amount > 0 { AppendAdvances(db.payments, p, now); }
      ConfirmPayments(db, db.(payments := db.payments + [p]), |db.payments|, o, Some(now), now, true);
  }

  lemma CreateAdvances(db: Db, hash: Text -> Text, req: Request, now: int)
    ensures PaymentsMove(db.payments, Create(db, hash, req, now).db.payments, now)
  {
    hide Collect, KeyOf, PaymentsMove;
    SameAdvances(db.payments, now);
    if Refusal(db.orders, req).None? {
      var order := db.orders[req.order];
      CollectAdvances(db, req.order, req.courier, req.provider, AmountOf(order, req.amount), KeyOf(order, hash, req), now);
    }
  }

  lemma RefundLeavesPayments(db: Db, pk: nat, coreAccepts: bool, now: int)
    requires pk < |db.payments| && db.payments[pk].order in db.orders
    ensures RefundPayment(db, pk, coreAccepts, now).db.payments == db.payments
  {
    hide EnsureRow, PaymentEvidence, Header, ExistingRefund;
  }

  lemma PaidAdvances(db: Db, pk: nat, now: int)
    requires pk < |db.payments| && db.payments[pk].order in db.orders
    ensures PaymentsMove(db.payments, PaidCallback(db, pk, now).db.payments, now)
  {
    hide EnsureRow, Confirm, PaymentEvidence, Header, CapacityError, PaymentsMove;
    var o := db.payments[pk].order;
    SameAdvances(db.payments, now);
    ConfirmPayments(db, db, pk, o, None, now, false);
    ConfirmPayments(db, MarkPaid(db, pk, now), pk, o, Some(now), now, true);
    if db.payments[pk].status == Pending && db.payments[pk].amount > 0 {
      RowAdvances(db.payments, pk, MarkPaid(db, pk, now).payments[pk], now);
    }
  }

  lemma FailAdvances(db: Db, pk: nat, now: int)
    requires pk < |db.payments| && db.payments[pk].order in db.orders
    ensures PaymentsMove(db.payments, FailCallback(db, pk, now).db.payments, now)
  {
    hide PaymentEvidence, Header, PaymentsMove;
    SameAdvances(db.payments, now);
    if db.payments[pk].status == Pending {
      RowAdvances(db.payments, pk, db.payments[pk].(status := Failed), now);
    }
  }

  /** Every create, refund and webhook counts a collection at most once, at its own clock, and
      never touches a collected one. */
  lemma LedgerMoves(db: Db, hash: Text -> Text, cmd: Command)
    requires Valid(db)
    ensures PaymentsMove(db.payments, Apply(db, hash, cmd).db.payments, cmd.now)
  {
    hide Create, PaidCallback, FailCallback, RefundPayment, Resolve, CleanKey, PaymentsMove;
    SameAdvances(db.payments, cmd.now);
    match cmd
    case DoCreate(req, now) => CreateAdvances(db, hash, req, now);
    case DoRefund(pk, coreAccepts, now) =>
      if pk < |db.payments| { RefundLeavesPayments(db, pk, coreAccepts, now); }
    case DoWebhook(cb, now) =>
      match Resolve(db, cb) {
        case Some(pk) =>
          PaidAdvances(db, pk, now);
          FailAdvances(db, pk, now);
          RefundLeavesPayments(db, pk, cb.coreAccepts, now);
        case None =>
          if cb.order.Some? && cb.order.value in db.orders {
            var o := cb.order.value;
            CreateAdvances(db, hash, Request(db.orders[o].rider, o, cb.provider, cb.amount, CleanKey(cb.key)), now);
          }
      }
  }

  // ----- refunds ----------------------------------------------------------------------------

  /** The refund rows stay as they were, or one is added for a collected payment that had none. */
  ghost predicate RefundsMove(db: Db, after: Db, t: int) {
    || after.refunds == db.refunds
    || exists pk :: 0 <= pk < |db.payments| && db.payments[pk].Collected()
         && !ExistingRefund(db.refunds, db.payments[pk].key)
         && after.refunds == db.refunds + [ProviderReversal(db.payments[pk], t)]
  }

  lemma CollectKeepsRefunds(
    db: Db, o: nat, courier: Option<nat>, provider: Provider, amount: int, key: Text, now: int)
    requires o in db.orders
    ensures Collect(db, o, courier, provider, amount, key, now).db.refunds == db.refunds
  {
    hide PaymentEvidence, EnsureRow, Header, CapacityError, IdentityError, ExistingRefund;
  }

  lemma CreateKeepsRefunds(db: Db, hash: Text -> Text, req: Request, now: int)
    ensures Create(db, hash, req, now).db.refunds == db.refunds
  {
    hide Collect, KeyOf;
    if Refusal(db.orders, req).None? {
      var order := db.orders[req.order];
      CollectKeepsRefunds(db, req.order, req.courier, req.provider, AmountOf(order, req.amount), KeyOf(order, hash, req), now);
    }
  }

  lemma RefundMoves(db: Db, pk: nat, coreAccepts: bool, now: int)
    requires pk < |db.payments| && db.payments[pk].order in db.orders
    ensures RefundsMove(db, RefundPayment(db, pk, coreAccepts, now).db, now)
  {
    hide EnsureRow, PaymentEvidence, Header, ExistingRefund;
  }

  lemma CallbacksKeepRefunds(db: Db, pk: nat, now: int)
    requires pk < |db.payments| && db.payments[pk].order in db.orders
    ensures PaidCallback(db, pk, now).db.refunds == db.refunds == FailCallback(db, pk, now).db.refunds
  {
    hide EnsureRow, PaymentEvidence, Header, CapacityError, ExistingRefund;
  }

  lemma LedgerRefundsMove(db: Db, hash: Text -> Text, cmd: Command)
    requires Valid(db)
    ensures RefundsMove(db, Apply(db, hash, cmd).db, cmd.now)
  {
    hide Create, PaidCallback, FailCallback, RefundPayment, Resolve, CleanKey, ExistingRefund;
    match cmd
    case DoCreate(req, now) => CreateKeepsRefunds(db, hash, req, now);
    case DoRefund(pk, coreAccepts, now) =>
      if pk < |db.payments| { RefundMoves(db, pk, coreAccepts, now); }
    case DoWebhook(cb, now) =>
      match Resolve(db, cb) {
        case Some(pk) =>
          CallbacksKeepRefunds(db, pk, now);
          RefundMoves(db, pk, cb.coreAccepts, now);
        case None =>
          if cb.order.Some? && cb.order.value in db.orders {
            var o := cb.order.value;
            CreateKeepsRefunds(db, hash, Request(db.orders[o].rider, o, cb.provider, cb.amount, CleanKey(cb.key)), now);
          }
      }
  }

  // ----- the ledger's books -----------------------------------------------------------------

  /** The tables of the ledger as reconciliation reads them. */
  function BooksOf(db: Db, ds: seq<Delivery>, ss: seq<Settlement>): Books {
    Books(db.payments, db.refunds, ds, ss)
  }

  /** Every live provider refund reverses a collected payment. */
  ghost predicate Grounded(db: Db) {
    forall r | r in db.refunds && Live(r) :: exists p :: p in db.payments && p.Collected() && p.key == r.sourceId
  }

  ghost predicate StampedUntil(ps: seq<Payment>, clock: int) {
    forall p, c | p in ps && Counted(p, c) :: p.paidAt.value <= clock
  }

  /** A collection made after its order's cancellation finds no room in what the cancellation froze. */
  ghost predicate NoRoomLeft(db: Db, after: Db) {
    forall i, c | 0 <= i < |after.payments| && Counted(after.payments[i], c) && !(i < |db.payments| && Counted(db.payments[i], c)) ::
      forall r | r in db.refunds && r.source == OrderCancel && !r.deleted
                 && r.order == after.payments[i].order && r.recordedAt < after.payments[i].paidAt.value ::
        Spent(db.payments, db.refunds, c, r, after.payments[i].provider)
  }

  lemma MoveAdvances(a: seq<Payment>, b: seq<Payment>, t: int)
    requires PaymentsMove(a, b, t)
    ensures PaymentsAdvance(a, b, t)
  {
  }

  lemma MoveStamps(a: seq<Payment>, b: seq<Payment>, clock: int, t: int)
    requires PaymentsMove(a, b, t) && StampedUntil(a, clock) && clock <= t
    ensures StampedUntil(b, t)
  {
    forall p, c | p in b && Counted(p, c) ensures p.paidAt.value <= t {
      var i :| 0 <= i < |b| && b[i] == p;
      if i < |a| && Counted(a[i], c) {
        assert a[i] in a;
      }
    }
  }

  lemma MoveGrounds(db: Db, after: Db, t: int)
    requires Grounded(db) && PaymentsMove(db.payments, after.payments, t) && RefundsMove(db, after, t)
    ensures Grounded(after)
  {
    forall r | r in after.refunds && Live(r)
      ensures exists p :: p in after.payments && p.Collected() && p.key == r.sourceId
    {
      var p :| p in db.payments && p.Collected() && p.key == r.sourceId by {
        if r !in db.refunds {
          var pk :| 0 <= pk < |db.payments| && db.payments[pk].Collected()
            && after.refunds == db.refunds + [ProviderReversal(db.payments[pk], t)];
          assert r == ProviderReversal(db.payments[pk], t);
          assert db.payments[pk] in db.payments;
        }
      }
      var i :| 0 <= i < |db.payments| && db.payments[i] == p;
      assert after.payments[i] == p && after.payments[i] in after.payments;
    }
  }

  /** A live provider refund that was there does not precede what becomes counted now. */
  lemma OldRefundIsEarlier(db: Db, after: Db, t: int, r: Reversal, i: nat, c: nat)
    requires Grounded(db) && Valid(after) && PaymentsMove(db.payments, after.payments, t)
    requires r in db.refunds && r.source == ProviderRefund
    requires i < |after.payments| && Counted(after.payments[i], c) && Reverses(r, after.payments[i])
    ensures i < |db.payments| && Counted(db.payments[i], c) && after.payments[i] == db.payments[i]
  {
    var p := after.payments[i];
    var q :| q in db.payments && q.Collected() && q.key == r.sourceId;
    var j :| 0 <= j < |db.payments| && db.payments[j] == q;
    assert after.payments[j] == q;
    assert i == j;
  }

  lemma MoveIsGrown(db: Db, after: Db, t: int, ds: seq<Delivery>, ss: seq<Settlement>)
    requires Valid(after) && OneRowEach(after)
    requires PaymentsMove(db.payments, after.payments, t) && RefundsMove(db, after, t)
    ensures Grown(BooksOf(db, ds, ss), BooksOf(after, ds, ss), t)
  {
    MoveAdvances(db.payments, after.payments, t);
    RefundsAdvance(db, after, t);
    SameDeliveries(ds, t);
    hide PaymentsMove, RefundsMove, PaymentsAdvance, ReversalsAdvance, DeliveriesAdvance;
  }

  /** One pair of a refund and a collection after the move. */
  lemma MoveFollows(db: Db, after: Db, clock: int, t: int, ds: seq<Delivery>, ss: seq<Settlement>, r: Reversal, i: nat, c: nat)
    requires Valid(after) && Grounded(db) && StampedUntil(after.payments, t)
    requires Grown(BooksOf(db, ds, ss), BooksOf(after, ds, ss), t)
    requires Sound(BooksOf(db, ds, ss)) && NoRoomLeft(db, after)
    requires PaymentsMove(db.payments, after.payments, t) && RefundsMove(db, after, t)
    requires r in after.refunds && i < |after.payments| && Counted(after.payments[i], c) && Reverses(r, after.payments[i])
    ensures Follows(after.payments, after.refunds, c, r, after.payments[i])
  {
    hide Spent, Grown, ExistingRefund, Consistent;
    var p := after.payments[i];
    if r.recordedAt < p.paidAt.value {
      assert p in after.payments && p.paidAt.value <= t;
      assert r in db.refunds;
      if i < |db.payments| && Counted(db.payments[i], c) {
        assert db.payments[i] == p && p in db.payments;
        assert Follows(db.payments, db.refunds, c, r, p);
      } else if r.source == ProviderRefund {
        OldRefundIsEarlier(db, after, t, r, i, c);
      }
      SpentStays(BooksOf(db, ds, ss), BooksOf(after, ds, ss), c, r, p.provider, t);
    }
  }

  lemma SpentStays(a: Books, b: Books, c: nat, r: Reversal, via: Provider, t: int)
    requires Grown(a, b, t) && r.recordedAt < t
    ensures Spent(b.payments, b.reversals, c, r, via) <==> Spent(a.payments, a.reversals, c, r, via)
  {
    EarlyStable(a, b, c, r, via, t, |b.payments|);
    hide EarlyOutstanding, Consistent;
  }

  lemma MoveIsSound(db: Db, after: Db, clock: int, t: int, ds: seq<Delivery>, ss: seq<Settlement>)
    requires Valid(after) && OneRowEach(after) && Grounded(db) && StampedUntil(db.payments, clock) && clock <= t
    requires Sound(BooksOf(db, ds, ss)) && NoRoomLeft(db, after)
    requires PaymentsMove(db.payments, after.payments, t) && RefundsMove(db, after, t)
    ensures Advances(BooksOf(db, ds, ss), BooksOf(after, ds, ss), t)
  {
    MoveStamps(db.payments, after.payments, clock, t);
    MoveIsGrown(db, after, t, ds, ss);
    GrownIsConsistent(BooksOf(db, ds, ss), BooksOf(after, ds, ss), t);
    forall r, p, c | r in after.refunds && p in after.payments && Counted(p, c) && Reverses(r, p)
      ensures Follows(after.payments, after.refunds, c, r, p)
    {
      var i :| 0 <= i < |after.payments| && after.payments[i] == p;
      hide Sound, Grown;
      MoveFollows(db, after, clock, t, ds, ss, r, i, c);
    }
    hide Grounded, NoRoomLeft, StampedUntil, PaymentsMove, Follows, Grown, Consistent;
  }

  lemma GrownIsConsistent(a: Books, b: Books, t: int)
    requires Grown(a, b, t)
    ensures Consistent(b)
  {
  }

  /** Every create, refund and webhook is work that a settlement run allows for: it counts a collection
      once, at its own clock, adds at most one refund row, after the collection it reverses, touches
      nothing that counted - and leaves the ledger so that this holds of the next one too. The one thing
      it does not see to is that a cancelled order has no room left. */
  lemma LedgerAdvances(db: Db, hash: Text -> Text, cmd: Command, clock: int, ds: seq<Delivery>, ss: seq<Settlement>)
    requires Valid(db) && OneRowEach(db) && Grounded(db) && StampedUntil(db.payments, clock) && clock <= cmd.now
    requires Sound(BooksOf(db, ds, ss)) && NoRoomLeft(db, Apply(db, hash, cmd).db)
    ensures var after := Apply(db, hash, cmd).db;
      && Advances(BooksOf(db, ds, ss), BooksOf(after, ds, ss), cmd.now)
      && Valid(after) && OneRowEach(after) && Grounded(after) && StampedUntil(after.payments, cmd.now)
  {
    hide Apply, OneRowEach, Grounded, Sound, NoRoomLeft, StampedUntil, PaymentsMove, Grows, Grown;
    var after := Apply(db, hash, cmd).db;
    LedgerMoves(db, hash, cmd);
    LedgerRefundsMove(db, hash, cmd);
    ApplyKeeps(db, hash, cmd, 0);
    ApplyGrows(db, hash, cmd);
    GrowsKeepsOne(db, after);
    MoveStamps(db.payments, after.payments, clock, cmd.now);
    MoveGrounds(db, after, cmd.now);
    MoveIsSound(db, after, clock, cmd.now, ds, ss);
  }

  lemma RefundsAdvance(db: Db, after: Db, t: int)
    requires RefundsMove(db, after, t)
    ensures ReversalsAdvance(db.refunds, after.refunds, t)
  {
    hide ExistingRefund;
  }

  lemma SameDeliveries(ds: seq<Delivery>, t: int)
    ensures DeliveriesAdvance(ds, ds, t)
  {
  }

  /** So is a cancellation refund that the core records. */
  lemma CancellationAdvances(db: Db, r: Reversal, clock: int, ds: seq<Delivery>, ss: seq<Settlement>)
    requires r.source == OrderCancel && clock <= r.recordedAt && StampedUntil(db.payments, clock)
    requires Sound(BooksOf(db, ds, ss))
    ensures Advances(BooksOf(db, ds, ss), BooksOf(db.(refunds := db.refunds + [r]), ds, ss), r.recordedAt)
  {
    var after := db.(refunds := db.refunds + [r]);
    var a, b := BooksOf(db, ds, ss), BooksOf(after, ds, ss);
    assert Consistent(b);
    assert Grown(a, b, r.recordedAt);
    hide Consistent, Grown, Spent;
    forall x, p, c | x in after.refunds && p in after.payments && Counted(p, c) && Reverses(x, p)
      ensures Follows(after.payments, after.refunds, c, x, p)
    {
      assert x in db.refunds || x == r;
      if x.recordedAt < p.paidAt.value {
        assert Follows(db.payments, db.refunds, c, x, p);
        SpentStays(a, b, c, x, p.provider, r.recordedAt);
      }
    }
  }

  // ----- deliveries -------------------------------------------------------------------------

  function DeliveryOf(rows: map<nat, D.Row>, o: nat): Delivery {
    if o in rows then Delivery(rows[o].courier, rows[o].stage == D.Delivered, rows[o].fee, rows[o].deliveredAt)
    else Delivery(None, false, 0, None)
  }

  /** The assignment rows of the first `n` orders as reconciliation reads them. */
  function DeliveriesOf(rows: map<nat, D.Row>, n: nat): seq<Delivery> {
    seq(n, o requires 0 <= o < n => DeliveryOf(rows, o))
  }

  lemma DeliveredNow(op: D.Op, order: Option<D.Order>, row: Option<D.Row>, courier: Option<D.Courier>, now: int)
    ensures var e := D.EffectOf(op, order, row, courier, now);
      e.Write? && e.row.stage == D.Delivered ==> e.row.deliveredAt == Some(now)
  {
  }

  lemma RowElsewhere(t: D.Tables, op: D.Op, now: int, o: nat)
    ensures o == op.order || D.Get(D.Atomic(t, op, now).rows, o) == D.Get(t.rows, o)
  {
    hide D.Alone;
  }

  /** Every dispatch transaction is work too: a delivery is done once, at its own clock, and a done one
      keeps its courier, fee and stamp. */
  lemma DispatchAdvances(t: D.Tables, op: D.Op, now: int, db: Db, ss: seq<Settlement>, n: nat)
    requires Sound(BooksOf(db, DeliveriesOf(t.rows, n), ss))
    ensures Advances(BooksOf(db, DeliveriesOf(t.rows, n), ss),
                     BooksOf(db, DeliveriesOf(D.Atomic(t, op, now).rows, n), ss), now)
  {
    hide D.EffectOf, D.EarlyRefusal, D.BusyElsewhere;
    var after := D.Atomic(t, op, now);
    var order, row := D.Get(t.orders, op.order), D.Get(t.rows, op.order);
    D.AtomicMovesOn(t, op, now);
    DeliveredNow(op, order, row, D.CourierRow(t, D.LockedCourier(op, row)), now);
    var a, b := DeliveriesOf(t.rows, n), DeliveriesOf(after.rows, n);
    forall i | 0 <= i < n && Done(b[i]) && !Done(a[i]) ensures now <= b[i].deliveredAt.value {
      RowElsewhere(t, op, now, i);
    }
    SoundWith(db, a, b, ss);
    SameAdvances(db.payments, now);
    MoveAdvances(db.payments, db.payments, now);
  }

  lemma SoundWith(db: Db, a: seq<Delivery>, b: seq<Delivery>, ss: seq<Settlement>)
    requires Sound(BooksOf(db, a, ss))
    ensures Sound(BooksOf(db, b, ss))
  {
  }
}
