/** What a reconciliation says in terms of the courier's rows alone. */
module SettlementMeaning {
  import opened Common
  import opened Text
  import opened PaymentRows
  import opened SettlementRows
  import opened SettlementTheorems

  // ----- sums over rows ---------------------------------------------------------------------

  /** What the courier collected by one provider, stamped in [start, end). */
  function Taken(ps: seq<Payment>, c: nat, via: Provider, start: int, end: int, n: nat): int
    requires n <= |ps|
  {
    if n == 0 then 0
    else
      var p := ps[n - 1];
      Taken(ps, c, via, start, end, n - 1)
      + if p.courier == Some(c) && (p.status == Paid || p.status == Refunded) && p.provider == via
          && p.paidAt.Some? && start <= p.paidAt.value < end then p.amount else 0
  }

  /** What refunds recorded in [start, end) take from the courier in one bucket. */
  function GivenBack(books: Books, c: nat, via: Provider, start: int, end: int, n: nat): int
    requires n <= |books.reversals|
  {
    if n == 0 then 0
    else
      var r := books.reversals[n - 1];
      GivenBack(books, c, via, start, end, n - 1) + if start <= r.recordedAt < end then Attributed(books, c, r).Of(via) else 0
  }

  predicate DoneIn(d: Delivery, c: nat, start: int, end: int) {
    d.courier == Some(c) && d.delivered && d.deliveredAt.Some? && start <= d.deliveredAt.value < end
  }

  function FeesEarned(ds: seq<Delivery>, c: nat, start: int, end: int, n: nat): int
    requires n <= |ds|
  {
    if n == 0 then 0 else FeesEarned(ds, c, start, end, n - 1) + if DoneIn(ds[n - 1], c, start, end) then ds[n - 1].fee else 0
  }

  function DeliveriesDone(ds: seq<Delivery>, c: nat, start: int, end: int): set<nat> {
    set i | 0 <= i < |ds| && DoneIn(ds[i], c, start, end)
  }

  // ----- a reconciliation -------------------------------------------------------------------

  lemma {:induction false} PaysAre(ps: seq<Payment>, c: nat, start: int, end: int, n: nat)
    requires n <= |ps|
    ensures PaySums(ps, c, start, end, n)
         == Sums(0, 0, Taken(ps, c, ByCash, start, end, n),
                 Taken(ps, c, ByCard, start, end, n) + Taken(ps, c, ByQr, start, end, n) + Taken(ps, c, UnknownProvider, start, end, n))
  {
    if n > 0 { PaysAre(ps, c, start, end, n - 1); }
  }

  lemma {:induction false} RefundsAre(books: Books, c: nat, start: int, end: int, n: nat)
    requires n <= |books.reversals|
    ensures RefundSums(books, c, start, end, n)
         == Sums(0, 0, -GivenBack(books, c, ByCash, start, end, n),
                 -(GivenBack(books, c, ByCard, start, end, n) + GivenBack(books, c, ByQr, start, end, n)))
  {
    hide Attributed;
    if n > 0 { RefundsAre(books, c, start, end, n - 1); }
  }

  lemma {:induction false} DeliveriesAre(ds: seq<Delivery>, c: nat, start: int, end: int, n: nat)
    requires n <= |ds|
    ensures DeliverySums(ds, c, start, end, n)
         == Sums(|DeliveriesDone(ds[..n], c, start, end)|, FeesEarned(ds, c, start, end, n), 0, 0)
  {
    if n > 0 {
      DeliveriesAre(ds, c, start, end, n - 1);
      DoneSplit(ds, c, start, end, n);
    } else {
      assert DeliveriesDone(ds[..0], c, start, end) == {};
    }
  }

  lemma DoneSplit(ds: seq<Delivery>, c: nat, start: int, end: int, n: nat)
    requires 0 < n <= |ds|
    ensures |DeliveriesDone(ds[..n], c, start, end)|
         == |DeliveriesDone(ds[..n - 1], c, start, end)| + if DoneIn(ds[n - 1], c, start, end) then 1 else 0
  {
    hide DoneIn;
    var before, after := DeliveriesDone(ds[..n - 1], c, start, end), DeliveriesDone(ds[..n], c, start, end);
    if DoneIn(ds[n - 1], c, start, end) {
      assert after == before + {n - 1};
    } else {
      assert after == before;
    }
  }

  /** The sums are what the courier collected in the window - cash apart from the rest - less what the
      refunds recorded in it take from the courier, and the deliveries done in it with their fees. */
  predicate Reconciles(books: Books, c: nat, start: int, end: int, s: Sums) {
    var p, r, d := |books.payments|, |books.reversals|, |books.deliveries|;
    && s.cash == Taken(books.payments, c, ByCash, start, end, p) - GivenBack(books, c, ByCash, start, end, r)
    && s.qr == Taken(books.payments, c, ByCard, start, end, p) + Taken(books.payments, c, ByQr, start, end, p)
             + Taken(books.payments, c, UnknownProvider, start, end, p)
             - GivenBack(books, c, ByCard, start, end, r) - GivenBack(books, c, ByQr, start, end, r)
    && s.deliveries == |DeliveriesDone(books.deliveries, c, start, end)|
    && s.fees == FeesEarned(books.deliveries, c, start, end, d)
  }

  lemma SnapshotReconciles(books: Books, c: nat, start: int, end: int)
    ensures Reconciles(books, c, start, end, Snapshot(books, c, start, end))
  {
    PaysAre(books.payments, c, start, end, |books.payments|);
    RefundsAre(books, c, start, end, |books.reversals|);
    DeliveriesAre(books.deliveries, c, start, end, |books.deliveries|);
    assert books.deliveries[..|books.deliveries|] == books.deliveries;
    hide PaySums, RefundSums, DeliverySums, Attributed;
  }

  // ----- what one refund takes --------------------------------------------------------------

  /** A live provider refund of the payment. */
  predicate Repays(q: Reversal, p: Payment) {
    q.source == ProviderRefund && !q.deleted && q.sourceId == p.key
  }

  ghost predicate RepaidOnce(rs: seq<Reversal>, p: Payment) {
    forall i, j | 0 <= i < j < |rs| :: !(Repays(rs[i], p) && Repays(rs[j], p))
  }

  /** What is left of a payment when `r` is recorded: what no provider refund has repaid by then. */
  ghost predicate IsLeft(rs: seq<Reversal>, p: Payment, r: Reversal, left: int) {
    if exists q :: q in rs && Repays(q, p) && q.recordedAt <= r.recordedAt
    then exists q :: q in rs && Repays(q, p) && q.recordedAt <= r.recordedAt && left == Max(p.amount - q.amount, 0)
    else left == p.amount
  }

  lemma PriorIs(rs: seq<Reversal>, p: Payment)
    requires RepaidOnce(rs, p)
    ensures match PriorRefund(rs, p.key)
      case None => forall q | q in rs :: !Repays(q, p)
      case Some(q) => q in rs && Repays(q, p) && forall x | x in rs && Repays(x, p) :: x == q
  {
    if rs != [] {
      var n := |rs| - 1;
      assert rs == rs[..n] + [rs[n]];
      if !Repays(rs[n], p) {
        PriorIs(rs[..n], p);
      } else {
        forall x | x in rs && Repays(x, p) ensures x == rs[n] {
          var i :| 0 <= i < |rs| && rs[i] == x;
        }
      }
    }
  }

  lemma RemainingIs(rs: seq<Reversal>, p: Payment, r: Reversal)
    requires RepaidOnce(rs, p)
    ensures IsLeft(rs, p, r, Remaining(rs, p, r))
  {
    PriorIs(rs, p);
  }

  /** The counted payments of the courier in the order. */
  predicate HeldInOrder(p: Payment, c: nat, o: nat, via: Provider) {
    p.courier == Some(c) && (p.status == Paid || p.status == Refunded) && p.paidAt.Some? && p.order == o && p.provider == via
  }

  /** `lefts` are what is left of each payment when `r` is recorded. */
  ghost predicate AreLeft(books: Books, r: Reversal, lefts: seq<int>) {
    |lefts| == |books.payments| && forall i | 0 <= i < |lefts| :: IsLeft(books.reversals, books.payments[i], r, lefts[i])
  }

  function LeftInOrder(ps: seq<Payment>, lefts: seq<int>, c: nat, o: nat, via: Provider, n: nat): int
    requires n <= |ps| == |lefts|
  {
    if n == 0 then 0
    else LeftInOrder(ps, lefts, c, o, via, n - 1) + if HeldInOrder(ps[n - 1], c, o, via) then lefts[n - 1] else 0
  }

  lemma {:induction false} LeftIsUnique(books: Books, p: Payment, r: Reversal, a: int)
    requires RepaidOnce(books.reversals, p) && IsLeft(books.reversals, p, r, a)
    ensures a == Remaining(books.reversals, p, r)
  {
    PriorIs(books.reversals, p);
  }

  lemma {:induction false} OutstandingIs(books: Books, c: nat, r: Reversal, via: Provider, lefts: seq<int>, n: nat)
    requires n <= |books.payments| && AreLeft(books, r, lefts) && forall p | p in books.payments :: RepaidOnce(books.reversals, p)
    ensures Outstanding(books, c, r, via, n) == LeftInOrder(books.payments, lefts, c, r.order, via, n)
  {
    hide Remaining, IsLeft, RepaidOnce;
    if n > 0 {
      OutstandingIs(books, c, r, via, lefts, n - 1);
      assert books.payments[n - 1] in books.payments;
      LeftIsUnique(books, books.payments[n - 1], r, lefts[n - 1]);
    }
  }

  /** What a live cancellation takes: in each bucket the lesser of what it froze outside the drawer and of
      what is left of the courier's collections in the order, unless that comes to nothing. */
  lemma CancellationTakes(books: Books, c: nat, r: Reversal, lefts: seq<int>)
    requires r.source == OrderCancel && !r.deleted
    requires AreLeft(books, r, lefts) && forall p | p in books.payments :: RepaidOnce(books.reversals, p)
    ensures var n := |books.payments|;
      var cash := Min(Max(r.cash - r.drawerCash, 0), LeftInOrder(books.payments, lefts, c, r.order, ByCash, n));
      var card := Min(r.card, LeftInOrder(books.payments, lefts, c, r.order, ByCard, n));
      var qr := Min(r.payme, LeftInOrder(books.payments, lefts, c, r.order, ByQr, n));
      Attributed(books, c, r) == if cash + card + qr <= 0 then Share(0, 0, 0) else Share(cash, card, qr)
  {
    hide Outstanding, LeftInOrder, AreLeft, Attributed, RepaidOnce, PaymentByKey;
    OutstandingIs(books, c, r, ByCash, lefts, |books.payments|);
    OutstandingIs(books, c, r, ByCard, lefts, |books.payments|);
    OutstandingIs(books, c, r, ByQr, lefts, |books.payments|);
    AttributedIsRaw(books, c, r);
  }

  /** What a live provider refund takes: its whole amount, in the bucket of the collection it repays, if
      that counts for the courier. */
  lemma ProviderRefundTakes(books: Books, c: nat, r: Reversal, p: Payment)
    requires r.source == ProviderRefund && !r.deleted && UniqueKeys(books.payments)
    requires p in books.payments && p.key == r.sourceId
    ensures Attributed(books, c, r)
         == if p.courier != Some(c) || (p.status != Paid && p.status != Refunded) || p.paidAt.None? || r.amount <= 0 then Share(0, 0, 0)
            else if p.provider == ByCash then Share(r.amount, 0, 0)
            else if p.provider == ByCard then Share(0, r.amount, 0)
            else Share(0, 0, r.amount)
  {
    hide PaymentByKey, Attributed, CancelShare, UniqueKeys;
    KeyFinds(books.payments, c, p);
    AttributedIsRaw(books, c, r);
  }

  lemma {:induction false} KeyFinds(ps: seq<Payment>, c: nat, p: Payment)
    requires UniqueKeys(ps) && p in ps
    ensures PaymentByKey(ps, c, p.key) == if Counted(p, c) then Some(p) else None
  {
    hide Counted;
    var n := |ps| - 1;
    assert ps == ps[..n] + [ps[n]];
    var i :| 0 <= i < |ps| && ps[i] == p;
    if i < n {
      KeyFinds(ps[..n], c, p);
    } else {
      NoOtherKey(ps[..n], c, p.key);
    }
  }

  lemma {:induction false} NoOtherKey(ps: seq<Payment>, c: nat, key: Text)
    requires forall p | p in ps :: p.key != key
    ensures PaymentByKey(ps, c, key).None?
  {
    if ps != [] { NoOtherKey(ps[..|ps| - 1], c, key); }
  }

  /** A deleted refund, one of another kind, or one that repays none of the courier's collections, takes
      nothing. */
  lemma NothingTaken(books: Books, c: nat, r: Reversal)
    requires r.deleted || r.source == OtherSource || (r.source == ProviderRefund && forall p | p in books.payments :: p.key != r.sourceId)
    ensures Attributed(books, c, r) == Share(0, 0, 0)
  {
    hide PaymentByKey, Attributed, CancelShare;
    AttributedIsRaw(books, c, r);
    if !r.deleted && r.source == ProviderRefund { NoOtherKey(books.payments, c, r.sourceId); }
  }

  // ----- the unsettled window ---------------------------------------------------------------

  predicate IsEvent(books: Books, c: nat, t: int) {
    || (exists p :: p in books.payments && p.courier == Some(c) && (p.status == Paid || p.status == Refunded) && p.paidAt == Some(t))
    || (exists d :: d in books.deliveries && d.courier == Some(c) && d.delivered && d.deliveredAt == Some(t))
  }

  lemma {:induction false} LastEndIs(ss: seq<Settlement>, c: nat)
    ensures match LastEnd(ss, c)
      case None => forall s | s in ss :: s.courier != c
      case Some(t) => (exists s :: s in ss && s.courier == c && s.end == t) && forall s | s in ss && s.courier == c :: s.end <= t
  {
    if ss != [] {
      var n := |ss| - 1;
      LastEndIs(ss[..n], c);
      assert ss == ss[..n] + [ss[n]];
      assert ss[n] in ss;
    }
  }

  lemma {:induction false} FirstPayIs(ps: seq<Payment>, c: nat)
    ensures match FirstPay(ps, c)
      case None => forall p | p in ps :: !Counted(p, c)
      case Some(t) => (exists p :: p in ps && Counted(p, c) && p.paidAt.value == t) && forall p | p in ps && Counted(p, c) :: t <= p.paidAt.value
  {
    if ps != [] {
      var n := |ps| - 1;
      FirstPayIs(ps[..n], c);
      assert ps == ps[..n] + [ps[n]];
      assert ps[n] in ps;
    }
  }

  predicate Finished(d: Delivery, c: nat) {
    d.courier == Some(c) && d.delivered && d.deliveredAt.Some?
  }

  lemma {:induction false} FirstDeliveryIs(ds: seq<Delivery>, c: nat)
    ensures match FirstDelivery(ds, c)
      case None => forall d | d in ds :: !Finished(d, c)
      case Some(t) => (exists d :: d in ds && Finished(d, c) && d.deliveredAt.value == t) && forall d | d in ds && Finished(d, c) :: t <= d.deliveredAt.value
  {
    if ds != [] {
      var n := |ds| - 1;
      FirstDeliveryIs(ds[..n], c);
      assert ds == ds[..n] + [ds[n]];
      assert ds[n] in ds;
    }
  }

  /** The unsettled window starts at the latest settlement's end, or else at the courier's earliest event,
      or else at midnight. */
  lemma UnsettledStartIs(books: Books, c: nat, midnight: int)
    ensures var start := UnsettledStart(books, c, midnight);
      if exists s :: s in books.settlements && s.courier == c then
        && (exists s :: s in books.settlements && s.courier == c && s.end == start)
        && (forall s | s in books.settlements && s.courier == c :: s.end <= start)
      else if exists t :: IsEvent(books, c, t) then
        IsEvent(books, c, start) && forall t | IsEvent(books, c, t) :: start <= t
      else start == midnight
  {
    LastEndIs(books.settlements, c);
    if LastEnd(books.settlements, c).None? {
      FirstPayIs(books.payments, c);
      FirstDeliveryIs(books.deliveries, c);
      EarliestIs(books, c, FirstPay(books.payments, c), FirstDelivery(books.deliveries, c));
    }
    hide LastEnd, FirstPay, FirstDelivery, IsEvent, Counted;
  }

  lemma EarliestIs(books: Books, c: nat, pay: Option<int>, done: Option<int>)
    requires match pay
      case None => forall p | p in books.payments :: !Counted(p, c)
      case Some(t) =>
        && (exists p :: p in books.payments && Counted(p, c) && p.paidAt.value == t)
        && forall p | p in books.payments && Counted(p, c) :: t <= p.paidAt.value
    requires match done
      case None => forall d | d in books.deliveries :: !Finished(d, c)
      case Some(t) =>
        && (exists d :: d in books.deliveries && Finished(d, c) && d.deliveredAt.value == t)
        && forall d | d in books.deliveries && Finished(d, c) :: t <= d.deliveredAt.value
    ensures match Earlier(pay, done)
      case None => forall t :: !IsEvent(books, c, t)
      case Some(x) => IsEvent(books, c, x) && forall t | IsEvent(books, c, t) :: x <= t
  {
    EventsAre(books, c);
    if pay.Some? {
      var p :| p in books.payments && Counted(p, c) && p.paidAt.value == pay.value;
      assert IsEvent(books, c, pay.value);
    }
    if done.Some? {
      var d :| d in books.deliveries && Finished(d, c) && d.deliveredAt.value == done.value;
      assert IsEvent(books, c, done.value);
    }
    hide IsEvent;
  }

  lemma EventsAre(books: Books, c: nat)
    ensures forall t :: IsEvent(books, c, t) <==>
      || (exists p :: p in books.payments && Counted(p, c) && p.paidAt.value == t)
      || (exists d :: d in books.deliveries && Finished(d, c) && d.deliveredAt.value == t)
  {
  }
}
