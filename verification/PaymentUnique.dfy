/** One provider event, one evidence row, one refund row. */
module PaymentUnique {
  import opened Common
  import opened Text
  import opened PaymentRows
  import opened PaymentTransactions
  import opened PaymentRuns

  /** No two synced courier rows share a branch and a key; no two live refunds share a key. */
  ghost predicate OneRowEach(db: Db) {
    && (forall i, j | 0 <= i < j < |db.exts| && db.exts[i].ofCourier ::
          !Holds(db.exts[j], db.exts[i].branch, db.exts[i].sourceId))
    && (forall i, j | 0 <= i < j < |db.refunds| && Live(db.refunds[i]) ::
          !(Live(db.refunds[j]) && db.refunds[j].sourceId == db.refunds[i].sourceId))
  }

  predicate Live(r: Reversal) {
    r.source == ProviderRefund && !r.deleted
  }

  /** At most one evidence row and at most one refund row was appended, each under a new key. */
  ghost predicate Grows(a: Db, b: Db) {
    && (|| b.exts == a.exts
        || (&& |b.exts| == |a.exts| + 1 && b.exts[..|a.exts|] == a.exts
            && var r := b.exts[|a.exts|]; FindExt(a.exts, r.branch, r.sourceId).None?))
    && (|| b.refunds == a.refunds
        || (&& |b.refunds| == |a.refunds| + 1 && b.refunds[..|a.refunds|] == a.refunds
            && !ExistingRefund(a.refunds, b.refunds[|a.refunds|].sourceId)))
  }

  lemma GrowsKeepsOne(a: Db, b: Db)
    requires OneRowEach(a) && Grows(a, b)
    ensures OneRowEach(b)
  {
    forall i, j | 0 <= i < j < |b.exts| && b.exts[i].ofCourier
      ensures !Holds(b.exts[j], b.exts[i].branch, b.exts[i].sourceId)
    {
      assert b.exts[i] == a.exts[i] && a.exts[i] in a.exts;
      if j < |a.exts| {
        assert b.exts[j] == a.exts[j];
      }
    }
    forall i, j | 0 <= i < j < |b.refunds| && Live(b.refunds[i])
      ensures !(Live(b.refunds[j]) && b.refunds[j].sourceId == b.refunds[i].sourceId)
    {
      assert b.refunds[i] == a.refunds[i] && a.refunds[i] in a.refunds;
      if j < |a.refunds| {
        assert b.refunds[j] == a.refunds[j];
      }
    }
  }

  lemma EnsureGrows(db: Db, pk: nat, o: nat)
    requires pk < |db.payments| && o in db.orders
    ensures var r := EnsureEvidence(db, pk, o); r.Ok? ==> Grows(db, r.value) && r.value.refunds == db.refunds
  {
    hide EvidenceClash, Strip, ExistingRefund;
  }

  lemma ConfirmGrows(before: Db, db: Db, pk: nat, o: nat, accounted: Option<int>, now: int, emits: bool)
    requires pk < |db.payments| && o in db.orders && db.exts == before.exts && db.refunds == before.refunds
    ensures Grows(before, Confirm(before, db, pk, o, accounted, now, emits).db)
  {
    EnsureGrows(db, pk, o);
    hide EnsureEvidence, PaymentEvidence, Header, ExistingRefund;
  }

  lemma CollectGrows(
    db: Db, o: nat, courier: Option<nat>, provider: Provider, amount: int, key: Text, now: int)
    requires o in db.orders
    ensures Grows(db, Collect(db, o, courier, provider, amount, key, now).db)
  {
    hide PaymentEvidence, Confirm, Header, CapacityError, IdentityError;
    var found := FindKey(db.payments, key);
    if found.Some? {
      ConfirmGrows(db, db, found.value, o, Some(now), now, false);
      ConfirmGrows(db, MarkPaid(db, found.value, now), found.value, o, Some(now), now, true);
    } else {
      var p := NewPayment(db, o, courier, provider, amount, key, now);
      ConfirmGrows(db, db.(payments := db.payments + [p]), |db.payments|, o, Some(now), now, true);
    }
  }

  lemma CreateGrows(db: Db, hash: Text -> Text, req: Request, now: int)
    ensures Grows(db, Create(db, hash, req, now).db)
  {
    hide Collect, KeyOf;
    if Refusal(db.orders, req).None? {
      var order := db.orders[req.order];
      CollectGrows(db, req.order, req.courier, req.provider, AmountOf(order, req.amount), KeyOf(order, hash, req), now);
    }
  }

  lemma RecordGrows(db: Db, pk: nat, now: int)
    requires pk < |db.payments|
    ensures var r := RecordRefund(db, pk, now); r.exts == db.exts && Grows(db, r)
  {
    hide ExistingRefund;
  }

  lemma GrowsInTurn(a: Db, b: Db, c: Db)
    requires Grows(a, b) && b.refunds == a.refunds && Grows(b, c) && c.exts == b.exts
    ensures Grows(a, c)
  {
    hide ExistingRefund, FindExt;
  }

  lemma RefundGrows(db: Db, pk: nat, coreAccepts: bool, now: int)
    requires pk < |db.payments| && db.payments[pk].order in db.orders
    ensures Grows(db, RefundPayment(db, pk, coreAccepts, now).db)
  {
    hide EnsureEvidence, PaymentEvidence, Header, ExistingRefund, RecordRefund;
    var r := EnsureEvidence(db, pk, db.payments[pk].order);
    EnsureGrows(db, pk, db.payments[pk].order);
    if r.Ok? {
      EnsureKeepsPayments(db, pk, db.payments[pk].order);
      RecordGrows(r.value, pk, now);
      GrowsInTurn(db, r.value, RecordRefund(r.value, pk, now));
    }
    hide Grows;
  }

  lemma EnsureKeepsPayments(db: Db, pk: nat, o: nat)
    requires pk < |db.payments| && o in db.orders
    ensures var r := EnsureEvidence(db, pk, o); r.Ok? ==> r.value.payments == db.payments
  {
  }

  lemma PaidGrows(db: Db, pk: nat, now: int)
    requires pk < |db.payments| && db.payments[pk].order in db.orders
    ensures Grows(db, PaidCallback(db, pk, now).db)
  {
    var o := db.payments[pk].order;
    EnsureGrows(db, pk, o);
    ConfirmGrows(db, db, pk, o, None, now, false);
    ConfirmGrows(db, MarkPaid(db, pk, now), pk, o, Some(now), now, true);
    hide EnsureEvidence, Confirm, PaymentEvidence, Header, CapacityError;
  }

  lemma ApplyGrows(db: Db, hash: Text -> Text, cmd: Command)
    requires Valid(db)
    ensures Grows(db, Apply(db, hash, cmd).db)
  {
    hide Create, PaidCallback, RefundPayment, Resolve, CleanKey, PaymentEvidence, Header;
    match cmd
    case DoCreate(req, now) => CreateGrows(db, hash, req, now);
    case DoRefund(pk, coreAccepts, now) =>
      if pk < |db.payments| { RefundGrows(db, pk, coreAccepts, now); }
    case DoWebhook(cb, now) =>
      match Resolve(db, cb) {
        case Some(pk) =>
          PaidGrows(db, pk, now);
          RefundGrows(db, pk, cb.coreAccepts, now);
        case None =>
          if cb.order.Some? && cb.order.value in db.orders {
            var o := cb.order.value;
            CreateGrows(db, hash, Request(db.orders[o].rider, o, cb.provider, cb.amount, CleanKey(cb.key)), now);
          }
      }
  }

  /** Through every run, an event keeps at most one evidence row and at most one refund row. */
  lemma {:induction false} OneRowThroughout(run: seq<Db>, hash: Text -> Text, cmds: seq<Command>, i: nat)
    requires IsRun(run, hash, cmds) && OneRowEach(run[0]) && i < |run|
    ensures OneRowEach(run[i])
  {
    hide OneRowEach, Grows, Valid, Apply;
    if i > 0 {
      OneRowThroughout(run, hash, cmds, i - 1);
      assert run[i] == Apply(run[i - 1], hash, cmds[i - 1]).db;
      ApplyGrows(run[i - 1], hash, cmds[i - 1]);
      GrowsKeepsOne(run[i - 1], run[i]);
    }
  }
}
