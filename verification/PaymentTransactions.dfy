/** The transactions on the courier ledger, each as one function of the committed tables.
    Locks make the transactions serial, so a run is a sequence of these functions. */
module PaymentTransactions {
  import opened Common
  import opened Text
  import opened PaymentRows
  import opened PaymentIdentity

  datatype Reason =
    | BadProvider | BadAmount | NoOrder | NotDelivery | NotAssigned | NoBranch
    | Unread(fault: Unreadable) | NothingDue | AlreadyPaid | OverCapacity
    | OtherOrder | OtherProvider | OtherAmount | OtherCourier
    | FailedKey | BadStatus | NotRefundable | NoRefundEvent | CoreRefused
    | UnknownPayment | UnsupportedStatus | Conflict(clash: Clash)

  /** Why settlement evidence could not be written or matched. */
  datatype Clash =
    | NotCollected | ForeignOrder | NoBranchOwner | ForeignBranch | BlankKey
    | InvalidProvider | NotPositive | Changed

  /** What the caller gets back: the row with the status it is presented with, or a reason. */
  datatype Reply =
    | Accepted(pk: nat, shown: Status, emits: bool)
    | Rejected(reason: Reason)
    | Nothing

  datatype Step = Step(db: Db, reply: Reply)

  // ----- capacity and header ---------------------------------------------------------------

  function CapacityError(db: Db, o: nat, amount: int): Option<Reason>
    requires o in db.orders
  {
    match PaymentEvidence(db, o)
    case Err(fault) => Some(Unread(fault))
    case Ok(e) =>
      if e.due <= 0 then Some(NothingDue)
      else if db.orders[o].isPaid && !e.hasRows then Some(AlreadyPaid)
      else if amount > e.due - e.total then Some(OverCapacity)
      else None
  }

  function TheOnly(s: set<Tender>): Tender {
    if |s| == 1 then
      assert s != {};
      assert forall a, b | a in s && b in s :: a == b by { OnlyOne(s); }
      var x :| x in s; x
    else MIXED
  }

  lemma OnlyOne(s: set<Tender>)
    requires |s| == 1
    ensures forall a, b | a in s && b in s :: a == b
  {
    forall a, b | a in s && b in s ensures a == b {
      assert |s - {a}| == 0;
      assert b !in s - {a};
    }
  }

  /** The paid header once the evidence reads `e`. */
  function Header(order: Order, e: Evidence, accounted: Option<int>, now: int): Order {
    if e.total > 0 && e.total >= e.due then
      order.(isPaid := true,
             accountedAt := if !order.isPaid && order.accountedAt.None? then accounted else order.accountedAt,
             tender := Some(TheOnly(e.tenders)),
             paidAt := Some(e.paidAt.GetOr(now)))
    else if order.isPaid then order
    else order.(tender := None, paidAt := None)
  }

  function Recompute(db: Db, o: nat, accounted: Option<int>, now: int): Db
    requires o in db.orders
  {
    match PaymentEvidence(db, o)
    case Err(_) => db
    case Ok(e) => db.(orders := db.orders[o := Header(db.orders[o], e, accounted, now)])
  }

  // ----- evidence --------------------------------------------------------------------------

  function EvidenceClash(p: Payment, o: nat, branch: Text): Option<Clash> {
    if !p.Collected() then Some(NotCollected)
    else if p.order != o then Some(ForeignOrder)
    else if Strip(branch) == [] then Some(NoBranchOwner)
    else if Strip(p.branch) != [] && Strip(p.branch) != Strip(branch) then Some(ForeignBranch)
    else if Strip(p.key) == [] then Some(BlankKey)
    else if !Concrete(TenderOf(p.provider)) then Some(InvalidProvider)
    else if p.amount <= 0 then Some(NotPositive)
    else None
  }

  function MirrorOf(p: Payment, o: nat, branch: Text): Ext {
    Ext(o, true, Strip(branch), p.key, TenderOf(p.provider), p.amount, p.At(), false)
  }

  predicate Holds(r: Ext, branch: Text, key: Text) {
    r.ofCourier && r.branch == branch && r.sourceId == key
  }

  function FindExt(exts: seq<Ext>, branch: Text, key: Text): (found: Option<nat>)
    ensures found.Some? ==> found.value < |exts| && Holds(exts[found.value], branch, key)
    ensures found.None? ==> forall r | r in exts :: !Holds(r, branch, key)
  {
    if exts == [] then None
    else
      var before := FindExt(exts[..|exts| - 1], branch, key);
      assert exts == exts[..|exts| - 1] + [exts[|exts| - 1]];
      if before.Some? then before
      else if Holds(exts[|exts| - 1], branch, key) then Some(|exts| - 1)
      else None
  }

  /** Get or create the one synced row of a collection; any changed field is a conflict. */
  function EnsureRow(exts: seq<Ext>, p: Payment, o: nat, branch: Text): Result<seq<Ext>, Clash> {
    var clash := EvidenceClash(p, o, branch);
    if clash.Some? then Err(clash.value)
    else
      var mirror := MirrorOf(p, o, branch);
      match FindExt(exts, mirror.branch, mirror.sourceId)
      case None => Ok(exts + [mirror])
      case Some(i) => if exts[i] == mirror then Ok(exts) else Err(Changed)
  }

  function EnsureEvidence(db: Db, pk: nat, o: nat): Result<Db, Clash>
    requires pk < |db.payments| && o in db.orders
  {
    match EnsureRow(db.exts, db.payments[pk], o, db.orders[o].branch)
    case Err(clash) => Err(clash)
    case Ok(exts) => Ok(db.(exts := exts))
  }

  // ----- create ----------------------------------------------------------------------------

  datatype Amount = WholeOrder(seenTotal: int) | Given(value: int) | Malformed

  datatype Request = Request(courier: Option<nat>, order: nat, provider: Provider, amount: Amount, key: Text)

  /** An explicit idempotency key as stored: stripped and cut to the column width. */
  function CleanKey(key: Text): Text {
    var k := Strip(key);
    if |k| > 128 then k[..128] else k
  }

  function FindKey(ps: seq<Payment>, key: Text): (found: Option<nat>)
    ensures found.Some? ==> found.value < |ps| && ps[found.value].key == key
    ensures found.None? ==> forall p | p in ps :: p.key != key
  {
    if ps == [] then None
    else
      var before := FindKey(ps[..|ps| - 1], key);
      assert ps == ps[..|ps| - 1] + [ps[|ps| - 1]];
      if before.Some? then before
      else if ps[|ps| - 1].key == key then Some(|ps| - 1)
      else None
  }

  function IdentityError(p: Payment, o: nat, courier: Option<nat>, provider: Provider, amount: int): Option<Reason> {
    if p.order != o then Some(OtherOrder)
    else if p.provider != provider then Some(OtherProvider)
    else if p.amount != amount then Some(OtherAmount)
    else if p.courier != courier then Some(OtherCourier)
    else None
  }

  function ProviderName(p: Provider): Text {
    match p
    case ByCash => Lit("CASH")
    case ByCard => Lit("CARD")
    case ByQr => Lit("QR")
    case UnknownProvider => []
  }

  function ExistingRefund(refunds: seq<Reversal>, key: Text): bool {
    exists r :: r in refunds && r.source == ProviderRefund && !r.deleted && r.sourceId == key
  }

  function ShownStatus(db: Db, pk: nat): Status
    requires pk < |db.payments|
  {
    if ExistingRefund(db.refunds, db.payments[pk].key) then Refunded else db.payments[pk].status
  }

  /** Write the evidence of a collected row and re-derive the header, or roll back to `before`. */
  function Confirm(before: Db, db: Db, pk: nat, o: nat, accounted: Option<int>, now: int, emits: bool): Step
    requires pk < |db.payments| && o in db.orders
  {
    match EnsureEvidence(db, pk, o)
    case Err(clash) => Step(before, Rejected(Conflict(clash)))
    case Ok(db') =>
      Step(Recompute(db', o, accounted, now),
           Accepted(pk, if emits then Paid else ShownStatus(db', pk), emits))
  }

  function MarkPaid(db: Db, pk: nat, now: int): Db
    requires pk < |db.payments|
  {
    db.(payments := db.payments[pk := db.payments[pk].(status := Paid, paidAt := Some(now))])
  }

  /** A create request that names an existing row. */
  function Replay(db: Db, pk: nat, o: nat, courier: Option<nat>, provider: Provider, amount: int, now: int): Step
    requires pk < |db.payments| && o in db.orders
  {
    var p := db.payments[pk];
    var identity := IdentityError(p, o, courier, provider, amount);
    if identity.Some? then Step(db, Rejected(identity.value))
    else
      match p.status
      case Paid => Confirm(db, db, pk, o, Some(now), now, false)
      case Refunded => Confirm(db, db, pk, o, Some(now), now, false)
      case Failed => Step(Recompute(db, o, Some(now), now), Rejected(FailedKey))
      case OtherStatus => Step(Recompute(db, o, Some(now), now), Rejected(BadStatus))
      case Pending =>
        var full := CapacityError(db, o, amount);
        if full.Some? then Step(db, Rejected(full.value))
        else Confirm(db, MarkPaid(db, pk, now), pk, o, Some(now), now, true)
  }

  function NewPayment(
    db: Db, o: nat, courier: Option<nat>, provider: Provider, amount: int, key: Text, now: int
  ): Payment
    requires o in db.orders
  {
    Payment(o, courier, provider, amount, Paid, key, db.orders[o].branch, now, Some(now))
  }

  function AmountOf(order: Order, amount: Amount): int {
    match amount
    case WholeOrder(_) => order.total
    case Given(v) => v
    case Malformed => 0
  }

  function KeyOf(order: Order, hash: Text -> Text, req: Request): Text {
    if CleanKey(req.key) != [] then CleanKey(req.key)
    else ManualKey(hash, order.uuid, req.courier, ProviderName(req.provider), AmountOf(order, req.amount))
  }

  /** The checks a create passes before it looks for its event. */
  function Refusal(orders: map<nat, Order>, req: Request): Option<Reason> {
    var seen := match req.amount case WholeOrder(t) => t case Given(v) => v case Malformed => 0;
    if req.provider.UnknownProvider? then Some(BadProvider)
    else if seen <= 0 then Some(BadAmount)
    else if req.order !in orders then Some(NoOrder)
    else
      var order := orders[req.order];
      if !order.delivery then Some(NotDelivery)
      else if req.courier.Some? && order.rider != req.courier then Some(NotAssigned)
      else if order.branch == [] then Some(NoBranch)
      else if AmountOf(order, req.amount) <= 0 then Some(BadAmount)
      else None
  }

  /** Find the event by its key, or record a new one. */
  function Collect(
    db: Db, o: nat, courier: Option<nat>, provider: Provider, amount: int, key: Text, now: int
  ): Step
    requires o in db.orders
  {
    match FindKey(db.payments, key)
    case Some(pk) => Replay(db, pk, o, courier, provider, amount, now)
    case None =>
      var full := CapacityError(db, o, amount);
      if full.Some? then Step(db, Rejected(full.value))
      else
        var p := NewPayment(db, o, courier, provider, amount, key, now);
        Confirm(db, db.(payments := db.payments + [p]), |db.payments|, o, Some(now), now, true)
  }

  /** Another transaction inserted the key between the look-up and the insert. */
  function LostRace(
    db: Db, pk: nat, o: nat, courier: Option<nat>, provider: Provider, amount: int, now: int
  ): Step
    requires pk < |db.payments| && o in db.orders
  {
    var p := db.payments[pk];
    var identity := IdentityError(p, o, courier, provider, amount);
    if identity.Some? then Step(db, Rejected(identity.value))
    else if p.Collected() then Confirm(db, db, pk, o, Some(now), now, false)
    else Step(db, Rejected(if p.status == Failed then FailedKey else BadStatus))
  }

  function Create(db: Db, hash: Text -> Text, req: Request, now: int): Step {
    var refusal := Refusal(db.orders, req);
    if refusal.Some? then Step(db, Rejected(refusal.value))
    else
      var order := db.orders[req.order];
      Collect(db, req.order, req.courier, req.provider, AmountOf(order, req.amount), KeyOf(order, hash, req), now)
  }

  // ----- refund ----------------------------------------------------------------------------

  /** The row of a provider refund: the whole amount, in the bucket of its tender, never the drawer's. */
  function ProviderReversal(p: Payment, now: int): Reversal {
    Reversal(ProviderRefund, p.key, p.order, p.amount,
             if p.provider == ByCash then p.amount else 0, 0,
             if p.provider == ByCard then p.amount else 0,
             if p.provider == ByQr then p.amount else 0, now, false)
  }

  /** The core's provider-refund ledger as assumed: appending is idempotent on the source id, and
      the core may refuse. */
  function RecordRefund(db: Db, pk: nat, now: int): Db
    requires pk < |db.payments|
  {
    var p := db.payments[pk];
    if ExistingRefund(db.refunds, p.key) then db
    else db.(refunds := db.refunds + [ProviderReversal(p, now)])
  }

  function RefundPayment(db: Db, pk: nat, coreAccepts: bool, now: int): Step
    requires pk < |db.payments| && db.payments[pk].order in db.orders
  {
    var p := db.payments[pk];
    var o := p.order;
    if !p.Collected() then Step(Recompute(db, o, None, now), Rejected(NotRefundable))
    else if db.orders[o].branch == [] then Step(db, Rejected(NoBranch))
    else
      match EnsureEvidence(db, pk, o)
      case Err(clash) => Step(db, Rejected(Conflict(clash)))
      case Ok(db') =>
        var known := ExistingRefund(db'.refunds, p.key);
        if p.status == Refunded then
          Step(db', if known then Accepted(pk, Refunded, false) else Rejected(NoRefundEvent))
        else if !known && !coreAccepts then Step(db', Rejected(CoreRefused))
        else Step(RecordRefund(db', pk, now), Accepted(pk, Refunded, !known))
  }

  // ----- webhook ---------------------------------------------------------------------------

  datatype Word = PaidWord | RefundWord | FailWord | OtherWord

  function PaidCallback(db: Db, pk: nat, now: int): Step
    requires pk < |db.payments| && db.payments[pk].order in db.orders
  {
    var p := db.payments[pk];
    var o := p.order;
    match p.status
    case Paid =>
      if db.orders[o].branch == [] then Step(db, Rejected(NoBranch))
      else Confirm(db, db, pk, o, None, now, false)
    case Refunded =>
      if db.orders[o].branch == [] then Step(db, Rejected(NoBranch))
      else
        (match EnsureEvidence(db, pk, o)
         case Err(clash) => Step(db, Rejected(Conflict(clash)))
         case Ok(db') => Step(Recompute(db', o, None, now), Accepted(pk, Refunded, false)))
    case Failed => Step(Recompute(db, o, None, now), Accepted(pk, Failed, false))
    case OtherStatus => Step(Recompute(db, o, None, now), Rejected(BadStatus))
    case Pending =>
      var full := CapacityError(db, o, p.amount);
      if full.Some? then Step(db, Rejected(full.value))
      else if db.orders[o].branch == [] then Step(db, Rejected(NoBranch))
      else Confirm(db, MarkPaid(db, pk, now), pk, o, Some(now), now, true)
  }

  function FailCallback(db: Db, pk: nat, now: int): Step
    requires pk < |db.payments| && db.payments[pk].order in db.orders
  {
    var p := db.payments[pk];
    var db' := if p.status == Pending then db.(payments := db.payments[pk := p.(status := Failed)]) else db;
    Step(Recompute(db', p.order, None, now), Accepted(pk, db'.payments[pk].status, false))
  }

  datatype Callback = Callback(
    word: Word, paymentId: Option<nat>, key: Text, order: Option<nat>,
    provider: Provider, amount: Amount, coreAccepts: bool)

  function Resolve(db: Db, cb: Callback): (pk: Option<nat>)
    ensures pk.Some? ==> pk.value < |db.payments|
  {
    if cb.paymentId.Some? then
      if cb.paymentId.value < |db.payments| then cb.paymentId else None
    else if CleanKey(cb.key) != [] then FindKey(db.payments, CleanKey(cb.key))
    else None
  }

  function Webhook(db: Db, hash: Text -> Text, cb: Callback, now: int): Step
    requires Valid(db)
  {
    match (cb.word, Resolve(db, cb))
    case (PaidWord, Some(pk)) => PaidCallback(db, pk, now)
    case (PaidWord, None) =>
      if cb.order.None? then Step(db, Rejected(UnknownPayment))
      else if cb.order.value !in db.orders then Step(db, Rejected(NoOrder))
      else
        var o := cb.order.value;
        Create(db, hash, Request(db.orders[o].rider, o, cb.provider, cb.amount, CleanKey(cb.key)), now)
    case (RefundWord, Some(pk)) => RefundPayment(db, pk, cb.coreAccepts, now)
    case (RefundWord, None) => Step(db, Rejected(UnknownPayment))
    case (FailWord, Some(pk)) => FailCallback(db, pk, now)
    case (FailWord, None) => Step(db, Nothing)
    case (OtherWord, _) => Step(db, Rejected(UnsupportedStatus))
  }
}
