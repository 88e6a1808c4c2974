/** Exactly when each ledger transaction succeeds, and everything it then leaves. */
module PaymentOutcomes {
  import opened Common
  import opened Text
  import opened PaymentRows
  import opened PaymentIdentity
  import opened PaymentTransactions
  import opened PaymentUnique
  import K = KeyMigration

  // ----- the evidence row of a collection ---------------------------------------------------

  /** The synced row that stands for a collection. */
  function SyncedRow(p: Payment, branch: Text): Ext {
    Ext(p.order, true, Strip(branch), p.key,
        match p.provider case ByCash => CASH case ByCard => UZCARD case ByQr => PAYME case UnknownProvider => UNLISTED,
        p.amount, if p.paidAt.Some? then p.paidAt.value else p.createdAt, false)
  }

  /** A collection can be recorded: its order has a branch that does not contradict its own, its key is not
      blank, its provider known, its amount positive, and no other row stands under its key. */
  predicate CanRecord(exts: seq<Ext>, p: Payment, branch: Text) {
    && Strip(branch) != [] && (Strip(p.branch) == [] || Strip(p.branch) == Strip(branch))
    && Strip(p.key) != [] && !p.provider.UnknownProvider? && p.amount > 0
    && (forall r | r in exts && r.ofCourier && r.branch == Strip(branch) && r.sourceId == p.key :: r == SyncedRow(p, branch))
  }

  function Recording(exts: seq<Ext>, p: Payment, branch: Text): seq<Ext> {
    if SyncedRow(p, branch) in exts then exts else exts + [SyncedRow(p, branch)]
  }

  ghost predicate UniqueExts(exts: seq<Ext>) {
    forall i, j | 0 <= i < j < |exts| && exts[i].ofCourier :: !Holds(exts[j], exts[i].branch, exts[i].sourceId)
  }

  lemma OnlyHolder(exts: seq<Ext>, i: nat, j: nat, branch: Text, key: Text)
    requires UniqueExts(exts) && i < |exts| && j < |exts| && Holds(exts[i], branch, key) && Holds(exts[j], branch, key)
    ensures i == j
  {
  }

  lemma EnsureComes(exts: seq<Ext>, p: Payment, branch: Text)
    requires UniqueExts(exts) && (p.status == Paid || p.status == Refunded)
    ensures EnsureRow(exts, p, p.order, branch).Ok? <==> CanRecord(exts, p, branch)
    ensures CanRecord(exts, p, branch) ==> EnsureRow(exts, p, p.order, branch) == Ok(Recording(exts, p, branch))
  {
    hide Strip;
    var row := SyncedRow(p, branch);
    assert EvidenceClash(p, p.order, branch).None? ==> MirrorOf(p, p.order, branch) == row;
    var found := FindExt(exts, row.branch, row.sourceId);
    hide FindExt;
    if found.Some? {
      var i := found.value;
      forall r | r in exts && Holds(r, row.branch, row.sourceId) ensures r == exts[i] {
        var j :| 0 <= j < |exts| && exts[j] == r;
        OnlyHolder(exts, i, j, row.branch, row.sourceId);
      }
      assert exts[i] in exts;
    }
  }

  /** A live provider refund of this key. */
  predicate IsRefunded(db: Db, key: Text) {
    exists r :: r in db.refunds && r.source == ProviderRefund && !r.deleted && r.sourceId == key
  }

  /** What a payment is presented as. */
  function Shown(db: Db, pk: nat): Status
    requires pk < |db.payments|
  {
    if IsRefunded(db, db.payments[pk].key) then Refunded else db.payments[pk].status
  }

  /** The row and its evidence are written and the header is derived again, or nothing is. */
  ghost predicate Records(
    db: Db, step: Step, pk: nat, p: Payment, may: bool, accounted: Option<int>, now: int, shown: Status, emits: bool)
    requires p.order in db.orders && pk <= |db.payments|
  {
    if may && CanRecord(db.exts, p, db.orders[p.order].branch) then
      var rows := if pk < |db.payments| then db.payments[pk := p] else db.payments + [p];
      var written := db.(payments := rows, exts := Recording(db.exts, p, db.orders[p.order].branch));
      step == Step(Recompute(written, p.order, accounted, now), Accepted(pk, shown, emits))
    else step.reply.Rejected? && step.db == db
  }

  lemma ConfirmComes(before: Db, db: Db, pk: nat, accounted: Option<int>, now: int, emits: bool)
    requires pk < |db.payments| && db.payments[pk].order in db.orders && UniqueExts(db.exts) && db.payments[pk].Collected()
    ensures var p, o := db.payments[pk], db.payments[pk].order;
      Confirm(before, db, pk, o, accounted, now, emits)
      == if CanRecord(db.exts, p, db.orders[o].branch)
         then Step(Recompute(db.(exts := Recording(db.exts, p, db.orders[o].branch)), o, accounted, now),
                   Accepted(pk, if emits then Paid else Shown(db, pk), emits))
         else Step(before, Confirm(before, db, pk, o, accounted, now, emits).reply)
    ensures !CanRecord(db.exts, db.payments[pk], db.orders[db.payments[pk].order].branch) ==>
      Confirm(before, db, pk, db.payments[pk].order, accounted, now, emits).reply.Rejected?
  {
    EnsureComes(db.exts, db.payments[pk], db.orders[db.payments[pk].order].branch);
    hide EnsureRow, CanRecord, Recording, Recompute;
  }

  // ----- callbacks --------------------------------------------------------------------------

  lemma RowStays(ps: seq<Payment>, pk: nat)
    requires pk < |ps|
    ensures ps[pk := ps[pk]] == ps
  {
  }

  /** A paid word: a pending payment is collected if it fits and can be recorded; a collected one has its
      evidence and header repaired; a failed one stays, acknowledged; anything else is refused. */
  lemma PaidWordComes(db: Db, pk: nat, now: int)
    requires pk < |db.payments| && db.payments[pk].order in db.orders && UniqueExts(db.exts)
    ensures var p, step := db.payments[pk], PaidCallback(db, pk, now);
      match p.status
      case Pending =>
        Records(db, step, pk, p.(status := Paid, paidAt := Some(now)), CapacityError(db, p.order, p.amount).None?, Some(now), now, Paid, true)
      case Paid => Records(db, step, pk, p, true, None, now, Shown(db, pk), false)
      case Refunded => Records(db, step, pk, p, true, None, now, Refunded, false)
      case Failed => step == Step(Recompute(db, p.order, None, now), Accepted(pk, Failed, false))
      case OtherStatus => step == Step(Recompute(db, p.order, None, now), Rejected(BadStatus))
  {
    hide EnsureRow, CapacityError, Recompute, Confirm, Recording, Strip, CanRecord, IsRefunded;
    var p := db.payments[pk];
    RowStays(db.payments, pk);
    BranchNeeded(db.exts, p, db.orders[p.order].branch);
    if p.status == Pending {
      BranchNeeded(db.exts, p.(status := Paid, paidAt := Some(now)), db.orders[p.order].branch);
      ConfirmComes(db, MarkPaid(db, pk, now), pk, Some(now), now, true);
    } else if p.Collected() {
      ConfirmComes(db, db, pk, None, now, false);
      EnsureComes(db.exts, p, db.orders[p.order].branch);
    }
  }

  lemma BlankIsNothing(t: Text)
    ensures t == [] ==> Strip(t) == []
  {
  }

  /** A failure word fails a pending payment and changes no other; the header is derived again. */
  lemma FailWordComes(db: Db, pk: nat, now: int)
    requires pk < |db.payments| && db.payments[pk].order in db.orders
    ensures var p := db.payments[pk];
      var status := if p.status == Pending then Failed else p.status;
      FailCallback(db, pk, now)
      == Step(Recompute(db.(payments := db.payments[pk := p.(status := status)]), p.order, None, now), Accepted(pk, status, false))
  {
    RowStays(db.payments, pk);
    hide Recompute;
  }

  /** A refund: only of a collected payment whose evidence can be recorded. One that is refunded already,
      or has its refund row, gets no second one; otherwise the core's acceptance adds the row, with the
      whole amount in the bucket of its provider and none of it from the drawer. */
  lemma RefundComes(db: Db, pk: nat, coreAccepts: bool, now: int)
    requires pk < |db.payments| && db.payments[pk].order in db.orders && UniqueExts(db.exts)
    ensures var p, step, known := db.payments[pk], RefundPayment(db, pk, coreAccepts, now), IsRefunded(db, db.payments[pk].key);
      var branch := db.orders[p.order].branch;
      var recorded := db.(exts := Recording(db.exts, p, branch));
      if p.status != Paid && p.status != Refunded then step == Step(Recompute(db, p.order, None, now), Rejected(NotRefundable))
      else if !CanRecord(db.exts, p, branch) then step.reply.Rejected? && step.db == db
      else if p.status == Refunded then step == Step(recorded, if known then Accepted(pk, Refunded, false) else Rejected(NoRefundEvent))
      else if known then step == Step(recorded, Accepted(pk, Refunded, false))
      else if !coreAccepts then step == Step(recorded, Rejected(CoreRefused))
      else
        && step.reply == Accepted(pk, Refunded, true)
        && step.db == recorded.(refunds := db.refunds + [step.db.refunds[|db.refunds|]])
        && IsWholeRefund(step.db.refunds[|db.refunds|], p, now)
  {
    hide EnsureRow, Recompute, Recording, CanRecord, Strip;
    var p := db.payments[pk];
    if p.Collected() {
      EnsureComes(db.exts, p, db.orders[p.order].branch);
      BranchNeeded(db.exts, p, db.orders[p.order].branch);
    }
  }

  lemma BranchNeeded(exts: seq<Ext>, p: Payment, branch: Text)
    ensures CanRecord(exts, p, branch) ==> branch != []
  {
    BlankIsNothing(branch);
  }

  predicate IsWholeRefund(r: Reversal, p: Payment, now: int) {
    && r.source == ProviderRefund && r.sourceId == p.key && r.order == p.order && r.amount == p.amount
    && r.recordedAt == now && !r.deleted && r.drawerCash == 0
    && (p.provider == ByCash ==> r.cash == p.amount && r.card == r.payme == 0)
    && (p.provider == ByCard ==> r.card == p.amount && r.cash == r.payme == 0)
    && (p.provider == ByQr ==> r.payme == p.amount && r.cash == r.card == 0)
  }

  // ----- create -----------------------------------------------------------------------------

  /** What a request asks for: the order's own total, once a total has been seen, or the amount given. */
  function Asked(order: Order, req: Request): int {
    match req.amount
    case WholeOrder(seen) => if seen > 0 then order.total else 0
    case Given(v) => v
    case Malformed => 0
  }

  /** The key a request is known by: its own, stripped and cut, or else the digest of what it is. */
  function KeyOfRequest(order: Order, hash: Text -> Text, req: Request): Text {
    var own := if |Strip(req.key)| > 128 then Strip(req.key)[..128] else Strip(req.key);
    var rider := if req.courier.None? || req.courier.value == 0 then [] else Decimal(req.courier.value);
    var name := match req.provider case ByCash => Lit("CASH") case ByCard => Lit("CARD") case ByQr => Lit("QR") case UnknownProvider => [];
    if own != [] then own
    else Lit("manual:") + hash(order.uuid + Lit("|") + rider + Lit("|") + name + Lit("|") + Integer(Asked(order, req)))
  }

  /** A historical row of the same event gets from the migration the key that the service would use. */
  lemma MigratedKeyIsServiceKey(order: Order, hash: Text -> Text, req: Request, r: K.Row)
    requires Strip(req.key) == [] && !req.provider.UnknownProvider?
    requires r.uuid == order.uuid && r.courier == req.courier && r.amount == Asked(order, req)
    requires r.provider == match req.provider case ByCash => Lit("CASH") case ByCard => Lit("CARD") case _ => Lit("QR")
    ensures K.Manual(hash, r) == KeyOfRequest(order, hash, req)
  {
    hide Strip, Decimal, Integer;
  }

  /** A request that names a delivery of its courier, with a provider and a positive amount. */
  predicate Admissible(db: Db, req: Request) {
    && !req.provider.UnknownProvider? && req.order in db.orders
    && var order := db.orders[req.order];
       && order.delivery && order.branch != [] && Asked(order, req) > 0
       && (req.courier.Some? ==> order.rider == req.courier)
  }

  lemma AdmissibleIff(db: Db, req: Request)
    ensures Refusal(db.orders, req).None? <==> Admissible(db, req)
    ensures Admissible(db, req) ==> AmountOf(db.orders[req.order], req.amount) == Asked(db.orders[req.order], req)
  {
  }

  lemma KeyIs(order: Order, hash: Text -> Text, req: Request)
    requires AmountOf(order, req.amount) == Asked(order, req)
    ensures KeyOf(order, hash, req) == KeyOfRequest(order, hash, req)
  {
    hide Strip, Decimal, Integer;
  }

  lemma InadmissibleIsRefused(db: Db, hash: Text -> Text, req: Request, now: int)
    requires !Admissible(db, req)
    ensures Create(db, hash, req, now).reply.Rejected? && Create(db, hash, req, now).db == db
  {
    AdmissibleIff(db, req);
  }

  lemma {:induction false} NobodyHolds(ps: seq<Payment>, key: Text)
    requires forall p | p in ps :: p.key != key
    ensures FindKey(ps, key).None?
  {
    if ps != [] { NobodyHolds(ps[..|ps| - 1], key); }
  }

  /** A request under a key nobody holds is collected exactly if it fits and can be recorded. */
  lemma NewCreateComes(db: Db, hash: Text -> Text, req: Request, now: int)
    requires UniqueExts(db.exts) && Admissible(db, req)
    requires forall p | p in db.payments :: p.key != KeyOfRequest(db.orders[req.order], hash, req)
    ensures var o := req.order; var order := db.orders[o];
      var p := Payment(o, req.courier, req.provider, Asked(order, req), Paid, KeyOfRequest(order, hash, req), order.branch, now, Some(now));
      Records(db, Create(db, hash, req, now), |db.payments|, p, CapacityError(db, o, p.amount).None?, Some(now), now, Paid, true)
  {
    AdmissibleIff(db, req);
    var order := db.orders[req.order];
    KeyIs(order, hash, req);
    var amount, key := Asked(order, req), KeyOfRequest(order, hash, req);
    hide Refusal, AmountOf, KeyOf, KeyOfRequest, Asked, CapacityError, Recompute, Recording, CanRecord, Confirm, FindKey;
    assert Create(db, hash, req, now) == Collect(db, req.order, req.courier, req.provider, amount, key, now);
    NobodyHolds(db.payments, key);
    var p := NewPayment(db, req.order, req.courier, req.provider, amount, key, now);
    ConfirmComes(db, db.(payments := db.payments + [p]), |db.payments|, Some(now), now, true);
  }

  /** A request under the key of an existing payment: another order, courier, provider or amount is
      refused and changes nothing; the same one is a replay. */
  lemma ReplayComes(db: Db, hash: Text -> Text, req: Request, now: int, pk: nat)
    requires Valid(db) && UniqueExts(db.exts) && Admissible(db, req) && pk < |db.payments|
    requires db.payments[pk].key == KeyOfRequest(db.orders[req.order], hash, req)
    ensures var p, step := db.payments[pk], Create(db, hash, req, now);
      if p.order != req.order || p.provider != req.provider || p.courier != req.courier || p.amount != Asked(db.orders[req.order], req)
      then step.reply.Rejected? && step.db == db
      else match p.status
        case Pending =>
          Records(db, step, pk, p.(status := Paid, paidAt := Some(now)), CapacityError(db, p.order, p.amount).None?, Some(now), now, Paid, true)
        case Failed => step == Step(Recompute(db, p.order, Some(now), now), Rejected(FailedKey))
        case OtherStatus => step == Step(Recompute(db, p.order, Some(now), now), Rejected(BadStatus))
        case _ => Records(db, step, pk, p, true, Some(now), now, Shown(db, pk), false)
  {
    AdmissibleIff(db, req);
    var order, p := db.orders[req.order], db.payments[pk];
    KeyIs(order, hash, req);
    var amount, key := Asked(order, req), KeyOfRequest(order, hash, req);
    hide Refusal, AmountOf, KeyOf, KeyOfRequest, Asked, CapacityError, Recompute, Recording, CanRecord, Confirm, FindKey;
    FoundKey(db, pk);
    assert Create(db, hash, req, now) == Replay(db, pk, req.order, req.courier, req.provider, amount, now);
    RowStays(db.payments, pk);
    if p.order == req.order {
      if p.Collected() { ConfirmComes(db, db, pk, Some(now), now, false); }
      ConfirmComes(db, MarkPaid(db, pk, now), pk, Some(now), now, true);
    }
  }

  lemma FoundKey(db: Db, pk: nat)
    requires UniqueKeys(db.payments) && pk < |db.payments|
    ensures FindKey(db.payments, db.payments[pk].key) == Some(pk)
  {
    var found := FindKey(db.payments, db.payments[pk].key);
    assert db.payments[pk] in db.payments;
  }

  // ----- which payment a callback means -------------------------------------------------------

  /** The payment of that number if one is given, or else the one that holds the stripped and cut key. */
  predicate Means(db: Db, cb: Callback, pk: nat) {
    && pk < |db.payments|
    && if cb.paymentId.Some? then pk == cb.paymentId.value
       else
         var key := if |Strip(cb.key)| > 128 then Strip(cb.key)[..128] else Strip(cb.key);
         key != [] && db.payments[pk].key == key
  }

  /** A callback about a payment does what its word does; about none, a paid word for an order is a create
      on behalf of its courier, and nothing else changes anything. */
  lemma WebhookComes(db: Db, hash: Text -> Text, cb: Callback, now: int)
    requires Valid(db)
    ensures var step := Webhook(db, hash, cb, now);
      && (forall pk: nat | Means(db, cb, pk) ::
            match cb.word
            case PaidWord => step == PaidCallback(db, pk, now)
            case RefundWord => step == RefundPayment(db, pk, cb.coreAccepts, now)
            case FailWord => step == FailCallback(db, pk, now)
            case OtherWord => step == Step(db, Rejected(UnsupportedStatus)))
      && ((forall pk: nat :: !Means(db, cb, pk)) ==>
            if cb.word == PaidWord && cb.order.Some? && cb.order.value in db.orders then
              step == Create(db, hash, Request(db.orders[cb.order.value].rider, cb.order.value, cb.provider, cb.amount, CleanKey(cb.key)), now)
            else step.db == db && if cb.word == FailWord then step.reply == Nothing else step.reply.Rejected?)
  {
    hide Strip, FindKey, PaidCallback, RefundPayment, FailCallback, Create;
    var found := Resolve(db, cb);
    if found.Some? {
      assert Means(db, cb, found.value);
      forall pk: nat | Means(db, cb, pk) ensures pk == found.value { }
    } else {
      forall pk: nat ensures !Means(db, cb, pk) {
        if pk < |db.payments| { assert db.payments[pk] in db.payments; }
      }
    }
  }
}
