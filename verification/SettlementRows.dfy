/** A courier's money rows, and how refunds are attributed to the courier. */
module SettlementRows {
  import opened Common
  import opened Text
  import opened PaymentRows

  /** The delivery side of an assignment. */
  datatype Delivery = Delivery(courier: Option<nat>, delivered: bool, fee: int, deliveredAt: Option<int>)

  datatype Sums = Sums(deliveries: int, fees: int, cash: int, qr: int) {
    function Plus(that: Sums): Sums {
      Sums(deliveries + that.deliveries, fees + that.fees, cash + that.cash, qr + that.qr)
    }
  }

  function NoSums(): Sums { Sums(0, 0, 0, 0) }

  datatype Settlement = Settlement(courier: nat, start: int, end: int, sums: Sums, bonuses: int, tips: int, payout: int)

  datatype Books = Books(
    payments: seq<Payment>, reversals: seq<Reversal>, deliveries: seq<Delivery>, settlements: seq<Settlement>)

  /** A collection that reconciliation counts for courier `c`. */
  predicate Counted(p: Payment, c: nat) {
    p.courier == Some(c) && p.Collected() && p.paidAt.Some?
  }

  // ----- attribution ------------------------------------------------------------------------

  datatype Share = Share(cash: int, card: int, payme: int) {
    function Total(): int {
      cash + card + payme
    }

    function Of(p: Provider): int {
      match p
      case ByCash => cash
      case ByCard => card
      case ByQr => payme
      case UnknownProvider => 0
    }
  }

  function NoShare(): Share { Share(0, 0, 0) }

  /** The dictionary of counted payments by key; a later row would replace an earlier one. */
  function PaymentByKey(ps: seq<Payment>, c: nat, key: Text): Option<Payment> {
    if ps == [] then None
    else if Counted(ps[|ps| - 1], c) && ps[|ps| - 1].key == key then Some(ps[|ps| - 1])
    else PaymentByKey(ps[..|ps| - 1], c, key)
  }

  predicate IsProviderRefund(r: Reversal, key: Text) {
    r.source == ProviderRefund && !r.deleted && r.sourceId == key
  }

  /** The dictionary of provider refunds by the key they reverse. */
  function PriorRefund(rs: seq<Reversal>, key: Text): Option<Reversal> {
    if rs == [] then None
    else if IsProviderRefund(rs[|rs| - 1], key) then Some(rs[|rs| - 1])
    else PriorRefund(rs[..|rs| - 1], key)
  }

  /** What of payment `p` was still unrefunded when `r` was recorded. */
  function Remaining(rs: seq<Reversal>, p: Payment, r: Reversal): int {
    var prior := PriorRefund(rs, p.key);
    if prior.Some? && prior.value.recordedAt <= r.recordedAt then Max(p.amount - prior.value.amount, 0)
    else p.amount
  }

  /** The courier's unrefunded money in the cancelled order, by one provider. */
  function Outstanding(books: Books, c: nat, r: Reversal, via: Provider, n: nat): int
    requires n <= |books.payments|
  {
    if n == 0 then 0
    else
      var p := books.payments[n - 1];
      Outstanding(books, c, r, via, n - 1)
      + (if Counted(p, c) && p.order == r.order && p.provider == via then Remaining(books.reversals, p, r) else 0)
  }

  /** A cancellation reverses at most its frozen bucket and at most what the courier still held. */
  function CancelShare(books: Books, c: nat, r: Reversal): Share {
    var n := |books.payments|;
    Share(Min(Max(r.cash - r.drawerCash, 0), Outstanding(books, c, r, ByCash, n)),
          Min(r.card, Outstanding(books, c, r, ByCard, n)),
          Min(r.payme, Outstanding(books, c, r, ByQr, n)))
  }

  function ProviderShare(p: Payment, amount: int): Share {
    match p.provider
    case ByCash => Share(amount, 0, 0)
    case ByCard => Share(0, amount, 0)
    case _ => Share(0, 0, amount)
  }

  /** The event concerns one of the courier's payments, whatever its status. */
  predicate Relevant(books: Books, c: nat, r: Reversal) {
    && !r.deleted
    && exists p :: p in books.payments && p.courier == Some(c)
         && (|| (r.source == ProviderRefund && p.key == r.sourceId)
             || (r.source == OrderCancel && p.order == r.order))
  }

  /** The courier's part of one refund; entries that come to nothing are dropped. */
  function Attributed(books: Books, c: nat, r: Reversal): Share {
    if !Relevant(books, c, r) then NoShare()
    else
      var share :=
        if r.source == ProviderRefund then
          var p := PaymentByKey(books.payments, c, r.sourceId);
          if p.None? then NoShare() else ProviderShare(p.value, r.amount)
        else CancelShare(books, c, r);
      if share.Total() <= 0 then NoShare() else share
  }

  // ----- windows ----------------------------------------------------------------------------

  predicate In(t: int, start: int, end: int) {
    start <= t < end
  }

  function DeliveryRow(d: Delivery, c: nat, start: int, end: int): Sums {
    if d.courier == Some(c) && d.delivered && d.deliveredAt.Some? && In(d.deliveredAt.value, start, end)
    then Sums(1, d.fee, 0, 0) else NoSums()
  }

  function DeliverySums(ds: seq<Delivery>, c: nat, start: int, end: int, n: nat): Sums
    requires n <= |ds|
  {
    if n == 0 then NoSums() else DeliverySums(ds, c, start, end, n - 1).Plus(DeliveryRow(ds[n - 1], c, start, end))
  }

  function PayRow(p: Payment, c: nat, start: int, end: int): Sums {
    if !Counted(p, c) || !In(p.paidAt.value, start, end) then NoSums()
    else if p.provider == ByCash then Sums(0, 0, p.amount, 0)
    else Sums(0, 0, 0, p.amount)
  }

  function PaySums(ps: seq<Payment>, c: nat, start: int, end: int, n: nat): Sums
    requires n <= |ps|
  {
    if n == 0 then NoSums() else PaySums(ps, c, start, end, n - 1).Plus(PayRow(ps[n - 1], c, start, end))
  }

  function RefundRow(books: Books, r: Reversal, c: nat, start: int, end: int): Sums {
    if !In(r.recordedAt, start, end) then NoSums()
    else
      var share := Attributed(books, c, r);
      Sums(0, 0, -share.cash, -(share.card + share.payme))
  }

  function RefundSums(books: Books, c: nat, start: int, end: int, n: nat): Sums
    requires n <= |books.reversals|
  {
    if n == 0 then NoSums()
    else RefundSums(books, c, start, end, n - 1).Plus(RefundRow(books, books.reversals[n - 1], c, start, end))
  }

  /** The courier's money over [start, end): fees by delivery time, tender by payment time, less
      attributed refunds by the time they were recorded. */
  function Snapshot(books: Books, c: nat, start: int, end: int): Sums {
    DeliverySums(books.deliveries, c, start, end, |books.deliveries|)
      .Plus(PaySums(books.payments, c, start, end, |books.payments|))
      .Plus(RefundSums(books, c, start, end, |books.reversals|))
  }

  // ----- the unsettled window ---------------------------------------------------------------

  function Earlier(a: Option<int>, b: Option<int>): Option<int> {
    if a.None? then b else if b.None? then a else Some(Min(a.value, b.value))
  }

  function LastEnd(ss: seq<Settlement>, c: nat): Option<int> {
    if ss == [] then None
    else
      var rest := LastEnd(ss[..|ss| - 1], c);
      if ss[|ss| - 1].courier == c then Later(rest, Some(ss[|ss| - 1].end)) else rest
  }

  function FirstPay(ps: seq<Payment>, c: nat): Option<int> {
    if ps == [] then None
    else
      var rest := FirstPay(ps[..|ps| - 1], c);
      if Counted(ps[|ps| - 1], c) then Earlier(rest, ps[|ps| - 1].paidAt) else rest
  }

  function FirstDelivery(ds: seq<Delivery>, c: nat): Option<int> {
    if ds == [] then None
    else
      var rest := FirstDelivery(ds[..|ds| - 1], c);
      var d := ds[|ds| - 1];
      if d.courier == Some(c) && d.delivered && d.deliveredAt.Some? then Earlier(rest, d.deliveredAt) else rest
  }

  function UnsettledStart(books: Books, c: nat, midnight: int): int {
    var last := LastEnd(books.settlements, c);
    if last.Some? then last.value
    else Earlier(FirstPay(books.payments, c), FirstDelivery(books.deliveries, c)).GetOr(midnight)
  }

  /** The books after the courier settles at `now`. */
  function Settle(books: Books, c: nat, now: int, midnight: int, bonuses: int, tips: int): Books {
    var start := UnsettledStart(books, c, midnight);
    var sums := Snapshot(books, c, start, now);
    books.(settlements := books.settlements +
      [Settlement(c, start, now, sums, bonuses, tips, sums.fees + bonuses + tips)])
  }
}
