/** Windows add up, frozen windows stay true, and refunds never take more than was collected. */
module SettlementTheorems {
  import opened Common
  import opened Text
  import opened PaymentRows
  import opened SettlementRows

  // ----- additivity -------------------------------------------------------------------------

  lemma PlusMixes(w: Sums, x: Sums, y: Sums, z: Sums)
    ensures w.Plus(x).Plus(y.Plus(z)) == w.Plus(y).Plus(x.Plus(z))
  {
  }

  lemma DeliveryRowSplit(d: Delivery, c: nat, a: int, b: int, e: int)
    requires a <= b <= e
    ensures DeliveryRow(d, c, a, b).Plus(DeliveryRow(d, c, b, e)) == DeliveryRow(d, c, a, e)
  {
  }

  lemma {:induction false} DeliveriesSplit(ds: seq<Delivery>, c: nat, a: int, b: int, e: int, n: nat)
    requires n <= |ds| && a <= b <= e
    ensures DeliverySums(ds, c, a, b, n).Plus(DeliverySums(ds, c, b, e, n)) == DeliverySums(ds, c, a, e, n)
  {
    hide DeliveryRow;
    if n > 0 {
      var d := ds[n - 1];
      DeliveriesSplit(ds, c, a, b, e, n - 1);
      DeliveryRowSplit(d, c, a, b, e);
      PlusMixes(DeliverySums(ds, c, a, b, n - 1), DeliveryRow(d, c, a, b),
                DeliverySums(ds, c, b, e, n - 1), DeliveryRow(d, c, b, e));
    }
  }

  lemma PayRowSplit(p: Payment, c: nat, a: int, b: int, e: int)
    requires a <= b <= e
    ensures PayRow(p, c, a, b).Plus(PayRow(p, c, b, e)) == PayRow(p, c, a, e)
  {
  }

  lemma {:induction false} PaymentsSplit(ps: seq<Payment>, c: nat, a: int, b: int, e: int, n: nat)
    requires n <= |ps| && a <= b <= e
    ensures PaySums(ps, c, a, b, n).Plus(PaySums(ps, c, b, e, n)) == PaySums(ps, c, a, e, n)
  {
    hide PayRow;
    if n > 0 {
      var p := ps[n - 1];
      PaymentsSplit(ps, c, a, b, e, n - 1);
      PayRowSplit(p, c, a, b, e);
      PlusMixes(PaySums(ps, c, a, b, n - 1), PayRow(p, c, a, b),
                PaySums(ps, c, b, e, n - 1), PayRow(p, c, b, e));
    }
  }

  lemma RefundRowSplit(books: Books, r: Reversal, c: nat, a: int, b: int, d: int)
    requires a <= b <= d
    ensures RefundRow(books, r, c, a, b).Plus(RefundRow(books, r, c, b, d)) == RefundRow(books, r, c, a, d)
  {
    hide Attributed;
  }

  lemma {:induction false} RefundsSplit(books: Books, c: nat, a: int, b: int, d: int, n: nat)
    requires n <= |books.reversals| && a <= b <= d
    ensures RefundSums(books, c, a, b, n).Plus(RefundSums(books, c, b, d, n)) == RefundSums(books, c, a, d, n)
  {
    hide RefundRow;
    if n > 0 {
      var r := books.reversals[n - 1];
      RefundsSplit(books, c, a, b, d, n - 1);
      RefundRowSplit(books, r, c, a, b, d);
      PlusMixes(RefundSums(books, c, a, b, n - 1), RefundRow(books, r, c, a, b),
                RefundSums(books, c, b, d, n - 1), RefundRow(books, r, c, b, d));
    }
  }

  /** Adjacent half-open windows add up; an event at the boundary falls in the later one only. */
  lemma WindowsAddUp(books: Books, c: nat, a: int, b: int, d: int)
    requires a <= b <= d
    ensures Snapshot(books, c, a, b).Plus(Snapshot(books, c, b, d)) == Snapshot(books, c, a, d)
  {
    hide DeliverySums, PaySums, RefundSums;
    DeliveriesSplit(books.deliveries, c, a, b, d, |books.deliveries|);
    PaymentsSplit(books.payments, c, a, b, d, |books.payments|);
    RefundsSplit(books, c, a, b, d, |books.reversals|);
  }

  // ----- causality --------------------------------------------------------------------------

  /** The event reverses money of this payment's order or of this payment itself. */
  predicate Reverses(r: Reversal, p: Payment) {
    && !r.deleted
    && (|| (r.source == ProviderRefund && r.sourceId == p.key)
        || (r.source == OrderCancel && r.order == p.order))
  }

  /** The database constraints: one payment per key, one live provider refund per key. */
  ghost predicate Consistent(books: Books) {
    && UniqueKeys(books.payments)
    && (forall i, j | 0 <= i < j < |books.reversals| :: !SameRefund(books.reversals[i], books.reversals[j]))
  }

  /** What cancellation `r` froze of one provider's bucket outside the drawer. */
  function FrozenBucket(r: Reversal, via: Provider): int {
    match via
    case ByCash => Max(r.cash - r.drawerCash, 0)
    case ByCard => r.card
    case ByQr => r.payme
    case UnknownProvider => 0
  }

  /** The courier's unrefunded money in the cancelled order, of collections no later than the
      cancellation. */
  function EarlyOutstanding(ps: seq<Payment>, rs: seq<Reversal>, c: nat, r: Reversal, via: Provider, n: nat): int
    requires n <= |ps|
  {
    if n == 0 then 0
    else
      var p := ps[n - 1];
      EarlyOutstanding(ps, rs, c, r, via, n - 1)
      + (if Counted(p, c) && p.paidAt.value <= r.recordedAt && p.order == r.order && p.provider == via
         then Remaining(rs, p, r) else 0)
  }

  /** What the courier held when the order was cancelled covers the frozen bucket: the cancellation has
      no room for a collection made later. */
  predicate Spent(ps: seq<Payment>, rs: seq<Reversal>, c: nat, r: Reversal, via: Provider) {
    FrozenBucket(r, via) <= EarlyOutstanding(ps, rs, c, r, via, |ps|)
  }

  /** The refund does not precede the collection; or it is a cancellation with no room for it. */
  predicate Follows(ps: seq<Payment>, rs: seq<Reversal>, c: nat, r: Reversal, p: Payment)
    requires Counted(p, c)
  {
    || p.paidAt.value <= r.recordedAt
    || (r.source == OrderCancel && p.amount >= 0 && Spent(ps, rs, c, r, p.provider))
  }

  /** The database constraints, and that no refund precedes a collection that it takes from. */
  ghost predicate Sound(books: Books) {
    && Consistent(books)
    && (forall r, p, c | r in books.reversals && p in books.payments && Counted(p, c) && Reverses(r, p) ::
          Follows(books.payments, books.reversals, c, r, p))
  }

  predicate SameRefund(a: Reversal, b: Reversal) {
    a.source == ProviderRefund && !a.deleted && IsProviderRefund(b, a.sourceId)
  }

  /** Payments only become counted, once, and no earlier than `t`. */
  ghost predicate PaymentsAdvance(a: seq<Payment>, b: seq<Payment>, t: int) {
    && |a| <= |b|
    && (forall i, c | 0 <= i < |a| && Counted(a[i], c) :: b[i] == a[i])
    && (forall i | 0 <= i < |a| ::
          b[i].courier == a[i].courier && b[i].order == a[i].order && b[i].key == a[i].key)
    && (forall i, c | 0 <= i < |b| && Counted(b[i], c) && !(i < |a| && Counted(a[i], c)) :: t <= b[i].paidAt.value)
  }

  ghost predicate DeliveriesAdvance(a: seq<Delivery>, b: seq<Delivery>, t: int) {
    && |a| <= |b|
    && (forall i | 0 <= i < |a| && Done(a[i]) :: b[i] == a[i])
    && (forall i | 0 <= i < |b| && Done(b[i]) && !(i < |a| && Done(a[i])) :: t <= b[i].deliveredAt.value)
  }

  predicate Done(d: Delivery) {
    d.delivered && d.deliveredAt.Some?
  }

  ghost predicate ReversalsAdvance(a: seq<Reversal>, b: seq<Reversal>, t: int) {
    a <= b && forall i | |a| <= i < |b| :: t <= b[i].recordedAt
  }

  /** Any amount of work stamped no earlier than `t`. */
  ghost predicate Advances(a: Books, b: Books, t: int) {
    Sound(b) && Grown(a, b, t)
  }

  ghost predicate Grown(a: Books, b: Books, t: int) {
    && Consistent(b)
    && PaymentsAdvance(a.payments, b.payments, t)
    && DeliveriesAdvance(a.deliveries, b.deliveries, t)
    && ReversalsAdvance(a.reversals, b.reversals, t)
    && b.settlements == a.settlements
  }

  // ----- what lookups find ------------------------------------------------------------------

  lemma {:induction false} ByKeyFinds(ps: seq<Payment>, c: nat, key: Text)
    ensures var p := PaymentByKey(ps, c, key);
      && (p.Some? ==> p.value in ps && Counted(p.value, c) && p.value.key == key)
      && (p.None? ==> forall q | q in ps && Counted(q, c) :: q.key != key)
  {
    if ps != [] {
      ByKeyFinds(ps[..|ps| - 1], c, key);
      assert ps == ps[..|ps| - 1] + [ps[|ps| - 1]];
    }
  }

  lemma {:induction false} PriorFinds(rs: seq<Reversal>, key: Text)
    ensures var r := PriorRefund(rs, key);
      && (r.Some? ==> r.value in rs && IsProviderRefund(r.value, key))
      && (r.None? ==> forall q | q in rs :: !IsProviderRefund(q, key))
  {
    if rs != [] {
      PriorFinds(rs[..|rs| - 1], key);
      assert rs == rs[..|rs| - 1] + [rs[|rs| - 1]];
    }
  }

  /** A live refund is found by its own key. */
  lemma PriorIs(books: Books, r: Reversal)
    requires Consistent(books) && r in books.reversals && r.source == ProviderRefund && !r.deleted
    ensures PriorRefund(books.reversals, r.sourceId) == Some(r)
  {
    PriorFinds(books.reversals, r.sourceId);
    var q := PriorRefund(books.reversals, r.sourceId).value;
    var i :| 0 <= i < |books.reversals| && books.reversals[i] == r;
    var j :| 0 <= j < |books.reversals| && books.reversals[j] == q;
  }

  lemma ByKeyIs(books: Books, c: nat, p: Payment)
    requires Consistent(books) && p in books.payments && Counted(p, c)
    ensures PaymentByKey(books.payments, c, p.key) == Some(p)
  {
    ByKeyFinds(books.payments, c, p.key);
    var q := PaymentByKey(books.payments, c, p.key).value;
    var i :| 0 <= i < |books.payments| && books.payments[i] == p;
    var j :| 0 <= j < |books.payments| && books.payments[j] == q;
  }

  // ----- attribution does not look at work done later ---------------------------------------

  /** The share before irrelevant and empty entries are dropped. */
  function RawShare(books: Books, c: nat, r: Reversal): Share {
    if r.source == ProviderRefund then
      var p := PaymentByKey(books.payments, c, r.sourceId);
      if p.None? then NoShare() else ProviderShare(p.value, r.amount)
    else CancelShare(books, c, r)
  }

  lemma {:induction false} NothingOutstanding(books: Books, c: nat, r: Reversal, via: Provider, n: nat)
    requires n <= |books.payments|
    requires forall p | p in books.payments && Counted(p, c) :: p.order != r.order
    ensures Outstanding(books, c, r, via, n) == 0
  {
    hide Remaining;
    if n > 0 { NothingOutstanding(books, c, r, via, n - 1); }
  }

  /** An event that concerns none of the courier's payments comes to nothing anyway. */
  lemma IrrelevantIsNothing(books: Books, c: nat, r: Reversal)
    requires !r.deleted && r.source != OtherSource && !Relevant(books, c, r)
    ensures RawShare(books, c, r).Total() <= 0
  {
    if r.source == ProviderRefund {
      ByKeyFinds(books.payments, c, r.sourceId);
    } else {
      NothingOutstanding(books, c, r, ByCash, |books.payments|);
      NothingOutstanding(books, c, r, ByCard, |books.payments|);
      NothingOutstanding(books, c, r, ByQr, |books.payments|);
    }
  }

  lemma AttributedIsRaw(books: Books, c: nat, r: Reversal)
    ensures Attributed(books, c, r)
         == if r.deleted || r.source == OtherSource || RawShare(books, c, r).Total() <= 0 then NoShare()
            else RawShare(books, c, r)
  {
    if !r.deleted && r.source != OtherSource && !Relevant(books, c, r) {
      IrrelevantIsNothing(books, c, r);
    }
    hide Outstanding, PaymentByKey, Remaining;
  }

  lemma StillThere<T>(a: seq<T>, b: seq<T>, x: T)
    requires a <= b && x in a
    ensures x in b
  {
  }

  /** A payment that an old event reverses was counted before the event. */
  lemma ReversedWasCounted(a: Books, b: Books, c: nat, r: Reversal, p: Payment, t: int)
    requires Advances(a, b, t) && r in a.reversals && r.recordedAt < t
    requires r.source == ProviderRefund && p in b.payments && Counted(p, c) && Reverses(r, p)
    ensures p in a.payments
  {
    StillThere(a.reversals, b.reversals, r);
    var j :| 0 <= j < |b.payments| && b.payments[j] == p;
    assert Follows(b.payments, b.reversals, c, r, p);
  }

  lemma CountedStays(a: Books, b: Books, c: nat, p: Payment, t: int)
    requires Grown(a, b, t) && p in a.payments && Counted(p, c)
    ensures p in b.payments
  {
    var i :| 0 <= i < |a.payments| && a.payments[i] == p;
    assert b.payments[i] == p;
  }

  lemma ByKeyStable(a: Books, b: Books, c: nat, r: Reversal, t: int)
    requires Advances(a, b, t) && r in a.reversals && r.recordedAt < t
    requires r.source == ProviderRefund && !r.deleted
    ensures PaymentByKey(a.payments, c, r.sourceId) == PaymentByKey(b.payments, c, r.sourceId)
  {
    ByKeyFinds(a.payments, c, r.sourceId);
    ByKeyFinds(b.payments, c, r.sourceId);
    var p, q := PaymentByKey(a.payments, c, r.sourceId), PaymentByKey(b.payments, c, r.sourceId);
    if p.Some? {
      CountedStays(a, b, c, p.value, t);
      ByKeyIs(b, c, p.value);
    }
    if q.Some? {
      ReversedWasCounted(a, b, c, r, q.value, t);
    }
  }

  lemma OldRefundStays(a: Books, b: Books, q: Reversal, t: int)
    requires Grown(a, b, t) && q in b.reversals && q.recordedAt < t
    ensures q in a.reversals
  {
    var j :| 0 <= j < |b.reversals| && b.reversals[j] == q;
  }

  lemma RemainingStable(a: Books, b: Books, p: Payment, r: Reversal, t: int)
    requires Grown(a, b, t) && r.recordedAt < t
    ensures Remaining(a.reversals, p, r) == Remaining(b.reversals, p, r)
  {
    var q, q' := PriorRefund(a.reversals, p.key), PriorRefund(b.reversals, p.key);
    PriorFinds(a.reversals, p.key);
    PriorFinds(b.reversals, p.key);
    if q.Some? {
      StillThere(a.reversals, b.reversals, q.value);
      PriorIs(b, q.value);
    }
    if q'.Some? && q'.value.recordedAt < t {
      OldRefundStays(a, b, q'.value, t);
    }
  }

  /** The term of payment `i` in what was outstanding early at `r`. */
  lemma EarlyTermStable(a: Books, b: Books, c: nat, r: Reversal, t: int, i: nat)
    requires Grown(a, b, t) && r.recordedAt < t && i < |b.payments|
    ensures var early := Counted(b.payments[i], c) && b.payments[i].paidAt.value <= r.recordedAt;
      && (early ==> i < |a.payments| && b.payments[i] == a.payments[i] && Counted(a.payments[i], c))
      && (i < |a.payments| && Counted(a.payments[i], c) ==> b.payments[i] == a.payments[i])
  {
  }

  lemma {:induction false} EarlyStable(a: Books, b: Books, c: nat, r: Reversal, via: Provider, t: int, n: nat)
    requires Grown(a, b, t) && r.recordedAt < t && n <= |b.payments|
    ensures EarlyOutstanding(b.payments, b.reversals, c, r, via, n)
         == EarlyOutstanding(a.payments, a.reversals, c, r, via, if n <= |a.payments| then n else |a.payments|)
  {
    hide Remaining, Consistent, ReversalsAdvance, DeliveriesAdvance;
    if n > 0 {
      EarlyStable(a, b, c, r, via, t, n - 1);
      EarlyTermStable(a, b, c, r, t, n - 1);
      RemainingStable(a, b, b.payments[n - 1], r, t);
    }
  }

  /** Later collections on a cancelled order find no room in its cancellation. */
  ghost predicate LateIsSpent(ps: seq<Payment>, rs: seq<Reversal>, c: nat, r: Reversal) {
    forall p | p in ps && Counted(p, c) && p.order == r.order && r.recordedAt < p.paidAt.value ::
      p.amount >= 0 && Spent(ps, rs, c, r, p.provider)
  }

  predicate IsLate(p: Payment, c: nat, r: Reversal, via: Provider) {
    Counted(p, c) && p.order == r.order && p.provider == via && r.recordedAt < p.paidAt.value
  }

  lemma {:induction false} OutstandingIsEarly(books: Books, c: nat, r: Reversal, via: Provider, n: nat)
    requires n <= |books.payments|
    requires forall p | p in books.payments && Counted(p, c) && p.order == r.order && r.recordedAt < p.paidAt.value :: p.amount >= 0
    ensures var early, all := EarlyOutstanding(books.payments, books.reversals, c, r, via, n), Outstanding(books, c, r, via, n);
      && early <= all
      && (early == all || exists p :: p in books.payments[..n] && IsLate(p, c, r, via))
  {
    if n > 0 {
      OutstandingIsEarly(books, c, r, via, n - 1);
      var p := books.payments[n - 1];
      assert p in books.payments && books.payments[..n] == books.payments[..n - 1] + [p];
      if q :| q in books.payments[..n - 1] && IsLate(q, c, r, via) {
        assert q in books.payments[..n];
      } else if IsLate(p, c, r, via) {
        assert p in books.payments[..n];
      }
    }
  }

  /** So a cancellation takes what it would take from the early collections alone. */
  lemma CancelIsEarly(books: Books, c: nat, r: Reversal, via: Provider)
    requires LateIsSpent(books.payments, books.reversals, c, r)
    ensures Min(FrozenBucket(r, via), Outstanding(books, c, r, via, |books.payments|))
         == Min(FrozenBucket(r, via), EarlyOutstanding(books.payments, books.reversals, c, r, via, |books.payments|))
  {
    hide EarlyOutstanding, Outstanding;
    OutstandingIsEarly(books, c, r, via, |books.payments|);
    assert books.payments[..|books.payments|] == books.payments;
  }

  lemma SoundIsSpent(b: Books, c: nat, r: Reversal)
    requires Sound(b) && r in b.reversals && r.source == OrderCancel && !r.deleted
    ensures LateIsSpent(b.payments, b.reversals, c, r)
  {
    hide Spent, Consistent;
    forall p | p in b.payments && Counted(p, c) && p.order == r.order && r.recordedAt < p.paidAt.value
      ensures p.amount >= 0 && Spent(b.payments, b.reversals, c, r, p.provider)
    {
      assert Reverses(r, p) && Follows(b.payments, b.reversals, c, r, p);
    }
  }

  lemma SpentBefore(a: Books, b: Books, c: nat, r: Reversal, t: int)
    requires Grown(a, b, t) && r.recordedAt < t && LateIsSpent(b.payments, b.reversals, c, r)
    ensures LateIsSpent(a.payments, a.reversals, c, r)
  {
    hide EarlyOutstanding, Consistent, ReversalsAdvance, DeliveriesAdvance;
    forall p | p in a.payments && Counted(p, c) && p.order == r.order && r.recordedAt < p.paidAt.value
      ensures p.amount >= 0 && Spent(a.payments, a.reversals, c, r, p.provider)
    {
      CountedStays(a, b, c, p, t);
      EarlyStable(a, b, c, r, p.provider, t, |b.payments|);
    }
  }

  /** What a cancellation takes is fixed once the clock has passed it. */
  lemma CancelStable(a: Books, b: Books, c: nat, r: Reversal, t: int)
    requires Advances(a, b, t) && r in a.reversals && r.recordedAt < t && r.source == OrderCancel && !r.deleted
    ensures CancelShare(a, c, r) == CancelShare(b, c, r)
  {
    hide EarlyOutstanding, Outstanding, LateIsSpent, Sound, PaymentsAdvance, DeliveriesAdvance;
    StillThere(a.reversals, b.reversals, r);
    SoundIsSpent(b, c, r);
    SpentBefore(a, b, c, r, t);
    forall via: Provider ensures Min(FrozenBucket(r, via), Outstanding(a, c, r, via, |a.payments|))
                              == Min(FrozenBucket(r, via), Outstanding(b, c, r, via, |b.payments|))
    {
      CancelIsEarly(a, c, r, via);
      CancelIsEarly(b, c, r, via);
      EarlyStable(a, b, c, r, via, t, |b.payments|);
      AdvanceGrows(a, b, t);
    }
    assert Min(FrozenBucket(r, ByCash), Outstanding(a, c, r, ByCash, |a.payments|)) == CancelShare(a, c, r).cash;
    assert Min(FrozenBucket(r, ByCard), Outstanding(a, c, r, ByCard, |a.payments|)) == CancelShare(a, c, r).card;
    assert Min(FrozenBucket(r, ByQr), Outstanding(a, c, r, ByQr, |a.payments|)) == CancelShare(a, c, r).payme;
  }

  /** What a refund takes from a courier is fixed once the clock has passed it. */
  lemma AttributedStable(a: Books, b: Books, c: nat, r: Reversal, t: int)
    requires Advances(a, b, t) && r in a.reversals && r.recordedAt < t
    ensures Attributed(a, c, r) == Attributed(b, c, r)
  {
    AttributedIsRaw(a, c, r);
    AttributedIsRaw(b, c, r);
    hide Attributed, CancelShare, PaymentByKey;
    if r.deleted || r.source == OtherSource {
    } else if r.source == ProviderRefund {
      ByKeyStable(a, b, c, r, t);
    } else {
      CancelStable(a, b, c, r, t);
    }
  }

  // ----- a window that ended stays what it was ----------------------------------------------

  lemma PayRowStable(a: seq<Payment>, b: seq<Payment>, c: nat, start: int, end: int, t: int, i: nat)
    requires PaymentsAdvance(a, b, t) && end <= t && i < |b|
    ensures PayRow(b[i], c, start, end) == if i < |a| then PayRow(a[i], c, start, end) else NoSums()
  {
  }

  lemma {:induction false} PaySumsStable(a: seq<Payment>, b: seq<Payment>, c: nat, start: int, end: int, t: int, n: nat)
    requires PaymentsAdvance(a, b, t) && end <= t && n <= |b|
    ensures PaySums(b, c, start, end, n) == PaySums(a, c, start, end, if n <= |a| then n else |a|)
  {
    hide PayRow, PaymentsAdvance;
    if n > 0 {
      PaySumsStable(a, b, c, start, end, t, n - 1);
      PayRowStable(a, b, c, start, end, t, n - 1);
    }
  }

  lemma DeliveryRowStable(a: seq<Delivery>, b: seq<Delivery>, c: nat, start: int, end: int, t: int, i: nat)
    requires DeliveriesAdvance(a, b, t) && end <= t && i < |b|
    ensures DeliveryRow(b[i], c, start, end) == if i < |a| then DeliveryRow(a[i], c, start, end) else NoSums()
  {
  }

  lemma {:induction false} DeliverySumsStable(a: seq<Delivery>, b: seq<Delivery>, c: nat, start: int, end: int, t: int, n: nat)
    requires DeliveriesAdvance(a, b, t) && end <= t && n <= |b|
    ensures DeliverySums(b, c, start, end, n) == DeliverySums(a, c, start, end, if n <= |a| then n else |a|)
  {
    hide DeliveryRow, DeliveriesAdvance;
    if n > 0 {
      DeliverySumsStable(a, b, c, start, end, t, n - 1);
      DeliveryRowStable(a, b, c, start, end, t, n - 1);
    }
  }

  lemma RefundRowStable(a: Books, b: Books, c: nat, start: int, end: int, t: int, i: nat)
    requires Advances(a, b, t) && end <= t && i < |b.reversals|
    ensures i < |a.reversals| ==> a.reversals[i] == b.reversals[i]
    ensures RefundRow(b, b.reversals[i], c, start, end)
         == if i < |a.reversals| then RefundRow(a, a.reversals[i], c, start, end) else NoSums()
  {
    hide Attributed, Sound, PaymentsAdvance, DeliveriesAdvance;
    var r := b.reversals[i];
    if i < |a.reversals| {
      assert a.reversals[i] == r && r in a.reversals;
      if r.recordedAt < end {
        AttributedStable(a, b, c, r, t);
      }
    }
  }

  lemma {:induction false} RefundSumsStable(a: Books, b: Books, c: nat, start: int, end: int, t: int, n: nat)
    requires Advances(a, b, t) && end <= t && n <= |b.reversals|
    ensures RefundSums(b, c, start, end, n)
         == RefundSums(a, c, start, end, if n <= |a.reversals| then n else |a.reversals|)
  {
    hide RefundRow, Advances;
    if n > 0 {
      RefundSumsStable(a, b, c, start, end, t, n - 1);
      RefundRowStable(a, b, c, start, end, t, n - 1);
    }
  }

  lemma AdvanceGrows(a: Books, b: Books, t: int)
    requires Advances(a, b, t)
    ensures |a.payments| <= |b.payments| && |a.deliveries| <= |b.deliveries| && |a.reversals| <= |b.reversals|
  {
  }

  lemma SnapshotStable(a: Books, b: Books, c: nat, start: int, end: int, t: int)
    requires Advances(a, b, t) && end <= t
    ensures Snapshot(b, c, start, end) == Snapshot(a, c, start, end)
  {
    hide PaySums, DeliverySums, RefundSums, Sound, PaymentsAdvance, DeliveriesAdvance, ReversalsAdvance;
    AdvanceGrows(a, b, t);
    PaySumsStable(a.payments, b.payments, c, start, end, t, |b.payments|);
    DeliverySumsStable(a.deliveries, b.deliveries, c, start, end, t, |b.deliveries|);
    RefundSumsStable(a, b, c, start, end, t, |b.reversals|);
  }
}
