/** A refund never takes more from a courier than the courier still held. */
module SettlementRefunds {
  import opened Common
  import opened Text
  import opened PaymentRows
  import opened SettlementRows
  import opened SettlementTheorems

  /** The tender bucket a collection is reconciled in: anything but cash and card is QR. */
  function Bucket(p: Payment): Provider {
    match p.provider
    case ByCash => ByCash
    case ByCard => ByCard
    case _ => ByQr
  }

  predicate Held(p: Payment, c: nat, o: nat, via: Provider) {
    Counted(p, c) && p.order == o && Bucket(p) == via
  }

  /** What the courier collected on an order in one bucket. */
  function Collected(books: Books, c: nat, o: nat, via: Provider, n: nat): int
    requires n <= |books.payments|
  {
    if n == 0 then 0
    else
      var p := books.payments[n - 1];
      Collected(books, c, o, via, n - 1) + if Held(p, c, o, via) then p.amount else 0
  }

  /** The order a refund takes from, seen from the courier. */
  predicate Hits(books: Books, c: nat, o: nat, r: Reversal) {
    match r.source
    case OrderCancel => r.order == o
    case ProviderRefund =>
      var p := PaymentByKey(books.payments, c, r.sourceId);
      p.Some? && p.value.order == o
    case OtherSource => false
  }

  /** What refunds took from the courier on that order in that bucket. */
  function Lost(books: Books, c: nat, o: nat, via: Provider, n: nat): int
    requires n <= |books.reversals|
  {
    if n == 0 then 0
    else
      var r := books.reversals[n - 1];
      Lost(books, c, o, via, n - 1) + if Hits(books, c, o, r) then Attributed(books, c, r).Of(via) else 0
  }

  // ----- a cancellation takes no more than is there -----------------------------------------

  lemma {:induction false} OutstandingNotNegative(books: Books, c: nat, r: Reversal, via: Provider, n: nat)
    requires n <= |books.payments| && forall p | p in books.payments :: p.amount >= 0
    ensures Outstanding(books, c, r, via, n) >= 0
  {
    if n > 0 { OutstandingNotNegative(books, c, r, via, n - 1); }
  }

  /** Each bucket of a cancellation entry is bounded by the frozen bucket, less the drawer's own
      cash, and by what of the courier's collections was not yet refunded. */
  lemma CancelBounded(books: Books, c: nat, r: Reversal)
    requires r.source == OrderCancel && forall p | p in books.payments :: p.amount >= 0
    ensures var share, n := Attributed(books, c, r), |books.payments|;
      && share.cash <= Min(Max(r.cash - r.drawerCash, 0), Outstanding(books, c, r, ByCash, n))
      && share.card <= Min(Max(r.card, 0), Outstanding(books, c, r, ByCard, n))
      && share.payme <= Min(Max(r.payme, 0), Outstanding(books, c, r, ByQr, n))
      && (share == NoShare() || share.Total() > 0)
  {
    var n := |books.payments|;
    OutstandingNotNegative(books, c, r, ByCash, n);
    OutstandingNotNegative(books, c, r, ByCard, n);
    OutstandingNotNegative(books, c, r, ByQr, n);
    hide Outstanding;
  }

  // ----- provider refunds, summed by refund and by payment ----------------------------------

  function PriorAmount(rs: seq<Reversal>, key: Text): int {
    var prior := PriorRefund(rs, key);
    if prior.None? then 0 else prior.value.amount
  }

  /** What the first `m` refunds gave back of the first `n` payments. */
  function PaidBack(books: Books, c: nat, o: nat, via: Provider, m: nat, n: nat): int
    requires m <= |books.reversals| && n <= |books.payments|
  {
    if n == 0 then 0
    else
      var p := books.payments[n - 1];
      PaidBack(books, c, o, via, m, n - 1)
      + if Held(p, c, o, via) then PriorAmount(books.reversals[..m], p.key) else 0
  }

  /** What refund `r` gives back among the first `n` payments. */
  function GivesBack(books: Books, c: nat, o: nat, via: Provider, r: Reversal, n: nat): int
    requires n <= |books.payments|
  {
    var q := PaymentByKey(books.payments[..n], c, r.sourceId);
    if IsProviderRefund(r, r.sourceId) && q.Some? && Held(q.value, c, o, via) then r.amount else 0
  }

  lemma PriorStep(books: Books, m: nat, key: Text)
    requires Sound(books) && m < |books.reversals|
    ensures var r := books.reversals[m];
      PriorAmount(books.reversals[..m + 1], key)
      == PriorAmount(books.reversals[..m], key) + if IsProviderRefund(r, key) then r.amount else 0
  {
    var rs := books.reversals;
    var r := rs[m];
    assert rs[..m + 1][..m] == rs[..m] && rs[..m + 1][m] == r;
    PriorFinds(rs[..m], key);
    if IsProviderRefund(r, key) {
      forall q | q in rs[..m] ensures !IsProviderRefund(q, key) {
        var j :| 0 <= j < m && rs[j] == q;
        assert !SameRefund(rs[j], rs[m]);
      }
    }
  }

  lemma KeyFresh(books: Books, c: nat, n: nat)
    requires Sound(books) && 0 < n <= |books.payments|
    ensures PaymentByKey(books.payments[..n - 1], c, books.payments[n - 1].key).None?
  {
    var ps := books.payments;
    var key := ps[n - 1].key;
    ByKeyFinds(ps[..n - 1], c, key);
    forall q | q in ps[..n - 1] ensures q.key != key {
      var j :| 0 <= j < n - 1 && ps[j] == q;
    }
  }

  lemma {:induction false} PaidBackStep(books: Books, c: nat, o: nat, via: Provider, m: nat, n: nat)
    requires Sound(books) && m < |books.reversals| && n <= |books.payments|
    ensures PaidBack(books, c, o, via, m + 1, n)
         == PaidBack(books, c, o, via, m, n) + GivesBack(books, c, o, via, books.reversals[m], n)
  {
    hide Sound, PriorAmount;
    if n > 0 {
      var p, r := books.payments[n - 1], books.reversals[m];
      PaidBackStep(books, c, o, via, m, n - 1);
      assert books.payments[..n][..n - 1] == books.payments[..n - 1];
      PriorStep(books, m, p.key);
      KeyFresh(books, c, n);
    }
  }

  lemma {:induction false} NothingPaidBack(books: Books, c: nat, o: nat, via: Provider, n: nat)
    requires n <= |books.payments|
    ensures PaidBack(books, c, o, via, 0, n) == 0
  {
    if n > 0 { NothingPaidBack(books, c, o, via, n - 1); }
  }

  /** A provider refund takes exactly what it gives back. */
  lemma ProviderRowIs(books: Books, c: nat, o: nat, via: Provider, r: Reversal)
    requires r.source == ProviderRefund && r.amount >= 0 && via != UnknownProvider
    ensures (if Hits(books, c, o, r) then Attributed(books, c, r).Of(via) else 0)
         == GivesBack(books, c, o, via, r, |books.payments|)
  {
    hide Attributed, PaymentByKey, CancelShare, Relevant;
    assert books.payments[..|books.payments|] == books.payments;
    AttributedIsRaw(books, c, r);
    ByKeyFinds(books.payments, c, r.sourceId);
  }

  /** Row `k` is the only live cancellation of the order, and no provider refund of a collection on
      it gives back more than was collected. */
  ghost predicate CancelledOnce(books: Books, c: nat, o: nat, k: nat) {
    && k < |books.reversals| && books.reversals[k].source == OrderCancel && books.reversals[k].order == o
    && (forall i | 0 <= i < |books.reversals| && books.reversals[i].source == OrderCancel
          && books.reversals[i].order == o && !books.reversals[i].deleted :: i == k)
    && (forall r | r in books.reversals && r.source == ProviderRefund :: r.amount >= 0)
    && (forall r, p | r in books.reversals && p in books.payments && Counted(p, c) && p.order == o
          && IsProviderRefund(r, p.key) :: r.amount <= p.amount)
  }

  /** No provider refund of a collection on the order was recorded after its cancellation. */
  ghost predicate NoLaterRefund(books: Books, c: nat, o: nat, k: nat)
    requires k < |books.reversals|
  {
    forall r, p | r in books.reversals && p in books.payments && Counted(p, c) && p.order == o
      && IsProviderRefund(r, p.key) :: r.recordedAt <= books.reversals[k].recordedAt
  }

  lemma {:induction false} LostSplits(books: Books, c: nat, o: nat, via: Provider, k: nat, m: nat)
    requires Sound(books) && CancelledOnce(books, c, o, k) && m <= |books.reversals| && via != UnknownProvider
    ensures Lost(books, c, o, via, m)
         == PaidBack(books, c, o, via, m, |books.payments|)
            + if k < m then Attributed(books, c, books.reversals[k]).Of(via) else 0
  {
    hide Attributed, Sound, PaidBack, GivesBack;
    if m == 0 {
      NothingPaidBack(books, c, o, via, |books.payments|);
    } else {
      var r := books.reversals[m - 1];
      assert r in books.reversals;
      LostSplits(books, c, o, via, k, m - 1);
      PaidBackStep(books, c, o, via, m - 1, |books.payments|);
      if r.source == ProviderRefund {
        ProviderRowIs(books, c, o, via, r);
      } else {
        OtherRowIs(books, c, o, via, r);
      }
    }
  }

  lemma OtherRowIs(books: Books, c: nat, o: nat, via: Provider, r: Reversal)
    requires r.source != ProviderRefund
    ensures GivesBack(books, c, o, via, r, |books.payments|) == 0
    ensures r.deleted ==> Attributed(books, c, r) == NoShare()
  {
  }

  // ----- the exact condition ----------------------------------------------------------------

  /** What of the courier's collections was not yet given back when `r` was recorded. */
  function Unrefunded(books: Books, c: nat, r: Reversal, via: Provider, n: nat): int
    requires n <= |books.payments|
  {
    if n == 0 then 0
    else
      var p := books.payments[n - 1];
      Unrefunded(books, c, r, via, n - 1)
      + if Held(p, c, r.order, via) then Remaining(books.reversals, p, r) else 0
  }

  /** What the provider refund of one collection gives back after `r`. */
  function LaterAmount(rs: seq<Reversal>, p: Payment, r: Reversal): int {
    var prior := PriorRefund(rs, p.key);
    if prior.Some? && prior.value.recordedAt > r.recordedAt then prior.value.amount else 0
  }

  /** What provider refunds recorded after `r` give back of the first `n` payments. */
  function PaidBackAfter(books: Books, c: nat, r: Reversal, via: Provider, n: nat): int
    requires n <= |books.payments|
  {
    if n == 0 then 0
    else
      var p := books.payments[n - 1];
      PaidBackAfter(books, c, r, via, n - 1)
      + if Held(p, c, r.order, via) then LaterAmount(books.reversals, p, r) else 0
  }

  /** A payment given back before `r` leaves its rest; one given back later was still whole. */
  lemma RemainingIsTheRest(rs: seq<Reversal>, p: Payment, r: Reversal)
    requires forall q | q in rs && IsProviderRefund(q, p.key) :: q.amount <= p.amount
    ensures Remaining(rs, p, r) + PriorAmount(rs, p.key) == p.amount + LaterAmount(rs, p, r)
  {
    PriorFinds(rs, p.key);
    hide PriorRefund;
  }

  lemma {:induction false} UnrefundedIsTheRest(books: Books, c: nat, o: nat, via: Provider, k: nat, n: nat)
    requires CancelledOnce(books, c, o, k) && n <= |books.payments|
    ensures var r := books.reversals[k];
      Unrefunded(books, c, r, via, n) + PaidBack(books, c, o, via, |books.reversals|, n)
      == Collected(books, c, o, via, n) + PaidBackAfter(books, c, r, via, n)
  {
    hide Remaining, PriorAmount, LaterAmount;
    if n > 0 {
      UnrefundedIsTheRest(books, c, o, via, k, n - 1);
      var rs, p := books.reversals, books.payments[n - 1];
      assert rs[..|rs|] == rs && p in books.payments;
      if Held(p, c, o, via) {
        RemainingIsTheRest(rs, p, rs[k]);
      }
    }
  }

  /** The cancellation can only reach what was not yet given back. */
  lemma {:induction false} OutstandingFits(books: Books, c: nat, r: Reversal, via: Provider, n: nat)
    requires n <= |books.payments| && via != UnknownProvider && forall p | p in books.payments :: p.amount >= 0
    ensures Outstanding(books, c, r, via, n) <= Unrefunded(books, c, r, via, n)
  {
    if n > 0 {
      OutstandingFits(books, c, r, via, n - 1);
      assert books.payments[n - 1] in books.payments;
    }
  }

  lemma {:induction false} NothingAfter(books: Books, c: nat, o: nat, via: Provider, k: nat, n: nat)
    requires CancelledOnce(books, c, o, k) && NoLaterRefund(books, c, o, k) && n <= |books.payments|
    ensures PaidBackAfter(books, c, books.reversals[k], via, n) == 0
  {
    if n > 0 {
      NothingAfter(books, c, o, via, k, n - 1);
      PriorFinds(books.reversals, books.payments[n - 1].key);
      assert books.payments[n - 1] in books.payments;
      hide PriorRefund;
    }
  }

  /** The courier's net on a cancelled order stays at or above nothing in a bucket exactly when the
      provider refunds that come after the cancellation fit what the cancellation left there. */
  lemma NetNeverNegativeIff(books: Books, c: nat, o: nat, via: Provider, k: nat)
    requires Sound(books) && CancelledOnce(books, c, o, k) && via != UnknownProvider
    ensures var r, n := books.reversals[k], |books.payments|;
      Lost(books, c, o, via, |books.reversals|) <= Collected(books, c, o, via, n)
      <==> PaidBackAfter(books, c, r, via, n) <= Unrefunded(books, c, r, via, n) - Attributed(books, c, r).Of(via)
  {
    LostSplits(books, c, o, via, k, |books.reversals|);
    UnrefundedIsTheRest(books, c, o, via, k, |books.payments|);
    hide *;
  }

  /** With no provider refund after the one cancellation, the courier's net on the order is never
      negative in any tender bucket. */
  lemma NetNeverNegative(books: Books, c: nat, o: nat, via: Provider, k: nat)
    requires Sound(books) && CancelledOnce(books, c, o, k) && NoLaterRefund(books, c, o, k) && via != UnknownProvider
    requires forall p | p in books.payments :: p.amount >= 0
    ensures Lost(books, c, o, via, |books.reversals|) <= Collected(books, c, o, via, |books.payments|)
  {
    var r, n := books.reversals[k], |books.payments|;
    NetNeverNegativeIff(books, c, o, via, k);
    NothingAfter(books, c, o, via, k, n);
    OutstandingFits(books, c, r, via, n);
    OutstandingNotNegative(books, c, r, via, n);
    CancelBounded(books, c, r);
    hide Lost, Unrefunded, Outstanding, Collected, Attributed, Sound, CancelledOnce, PaidBackAfter;
  }

  /** A provider refund recorded after the cancellation takes the same money again. */
  lemma LaterRefundTakesTwice(p: Payment)
    requires p.provider == ByCash && p.courier.Some? && p.Collected() && p.paidAt == Some(1) && p.amount == 100
    ensures var cancel := Reversal(OrderCancel, [], p.order, 100, 100, 0, 0, 0, 2, false);
            var refund := Reversal(ProviderRefund, p.key, p.order, 100, 100, 0, 0, 0, 3, false);
            var books := Books([p], [cancel, refund], [], []);
      Collected(books, p.courier.value, p.order, ByCash, 1) == 100
      && Lost(books, p.courier.value, p.order, ByCash, 2) == 200
  {
    var c := p.courier.value;
    var cancel := Reversal(OrderCancel, [], p.order, 100, 100, 0, 0, 0, 2, false);
    var refund := Reversal(ProviderRefund, p.key, p.order, 100, 100, 0, 0, 0, 3, false);
    var books := Books([p], [cancel, refund], [], []);
    assert Counted(p, c) && p in books.payments;
    assert PriorRefund([cancel, refund], p.key) == Some(refund);
    assert Outstanding(books, c, cancel, ByCash, 1) == 100 by {
      assert Outstanding(books, c, cancel, ByCash, 0) == 0;
    }
    assert Outstanding(books, c, cancel, ByCard, 1) == 0;
    assert Outstanding(books, c, cancel, ByQr, 1) == 0;
    assert Attributed(books, c, cancel) == Share(100, 0, 0);
    assert PaymentByKey(books.payments, c, p.key) == Some(p);
    assert Attributed(books, c, refund) == Share(100, 0, 0);
    assert Lost(books, c, p.order, ByCash, 1) == 100 by {
      assert Lost(books, c, p.order, ByCash, 0) == 0;
    }
    assert Collected(books, c, p.order, ByCash, 0) == 0;
  }
}
