/** Every run of creates, refunds and webhooks keeps the constraints and the collection bound. */
module PaymentRuns {
  import opened Common
  import opened Text
  import opened PaymentRows
  import opened PaymentIdentity
  import opened PaymentFold
  import opened PaymentTransactions
  import opened PaymentSafety

  datatype Command =
    | DoCreate(req: Request, now: int)
    | DoRefund(pk: nat, coreAccepts: bool, now: int)
    | DoWebhook(cb: Callback, now: int)

  function Apply(db: Db, hash: Text -> Text, cmd: Command): Step
    requires Valid(db)
  {
    match cmd
    case DoCreate(req, now) => Create(db, hash, req, now)
    case DoRefund(pk, coreAccepts, now) =>
      if pk < |db.payments| then RefundPayment(db, pk, coreAccepts, now) else Step(db, Rejected(UnknownPayment))
    case DoWebhook(cb, now) => Webhook(db, hash, cb, now)
  }

  /** What one transaction may do to the tables: rows stay, totals and branches stay, the evidence
      of a healthy order stays readable, and an order within its total stays within it. */
  ghost predicate Keeps(db: Db, db': Db, x: nat) {
    && Valid(db')
    && db'.orders.Keys == db.orders.Keys
    && (forall o | o in db.orders ::
          db'.orders[o].total == db.orders[o].total && db'.orders[o].branch == db.orders[o].branch)
    && (Healthy(db, x) ==> Healthy(db', x))
    && (WithinTotal(db, x) ==> WithinTotal(db', x))
  }

  ghost predicate StepKeeps(db: Db, db': Db, x: nat) {
    Keeps(db, db', x) && Fits(db, db', x)
  }

  /** The second step moves no money. */
  ghost predicate SameMoney(a: Db, b: Db, x: nat) {
    x in a.orders ==> NonDrawer(b, x) == NonDrawer(a, x)
  }

  lemma RecomputeKeeps(db: Db, o: nat, accounted: Option<int>, now: int, x: nat)
    requires Valid(db) && o in db.orders
    ensures StepKeeps(db, Recompute(db, o, accounted, now), x) && SameMoney(db, Recompute(db, o, accounted, now), x)
  {
    hide Recompute, CountsAgain, PaymentEvidence, CleanBranch, Strip;
    RecomputeFrame(db, o, accounted, now);
  }

  lemma KeepsSelf(db: Db, x: nat)
    requires Valid(db)
    ensures StepKeeps(db, db, x)
  {
  }

  lemma KeepsTransitive(a: Db, b: Db, c: Db, x: nat)
    requires Keeps(a, b, x) && Keeps(b, c, x)
    ensures Keeps(a, c, x)
  {
  }

  lemma StepThen(a: Db, b: Db, c: Db, x: nat)
    requires StepKeeps(a, b, x) && StepKeeps(b, c, x) && SameMoney(b, c, x)
    ensures StepKeeps(a, c, x)
  {
    hide WithinTotal, Healthy, NonDrawer, CountsAgain;
  }

  lemma EnsureRepairKeeps(db: Db, pk: nat, x: nat)
    requires Valid(db) && pk < |db.payments| && db.payments[pk].Collected()
    ensures var r := EnsureEvidence(db, pk, db.payments[pk].order); r.Ok? ==> StepKeeps(db, r.value, x) && r.value.payments == db.payments
  {
    hide WithinTotal, PaymentEvidence, EnsureRow, CleanBranch;
    var r := EnsureEvidence(db, pk, db.payments[pk].order);
    if Healthy(db, x) {
      RepairKeepsEvidence(db, pk, x);
    }
    if WithinTotal(db, x) {
      RepairKeepsMoney(db, pk, x);
    }
    RepairFits(db, pk, x);
    hide Fits;
    if r.Ok? {
      ExtsKeepValid(db, r.value);
    }
  }

  /** A replay of a collected row repairs the evidence and the header, and nothing else. */
  lemma ConfirmRepairKeeps(db: Db, pk: nat, accounted: Option<int>, now: int, x: nat)
    requires Valid(db) && pk < |db.payments| && db.payments[pk].Collected()
    ensures StepKeeps(db, Confirm(db, db, pk, db.payments[pk].order, accounted, now, false).db, x)
  {
    var o := db.payments[pk].order;
    EnsureRepairKeeps(db, pk, x);
    var r := EnsureEvidence(db, pk, o);
    if r.Ok? {
      RecomputeKeeps(r.value, o, accounted, now, x);
      StepThen(db, r.value, Recompute(r.value, o, accounted, now), x);
    }
  }

  /** Neither synced rows nor refunds are part of the constraints on payments. */
  lemma ExtsKeepValid(db: Db, db': Db)
    requires Valid(db) && db' == db.(exts := db'.exts)
    ensures Valid(db')
  {
  }

  lemma EnsureNewKeeps(before: Db, after: Db, pk: nat, x: nat)
    requires Valid(before) && Valid(after) && NewlyCollected(before, after, pk)
    requires after.payments[pk].order in before.orders
    requires CapacityError(before, after.payments[pk].order, after.payments[pk].amount).None?
    requires EnsureEvidence(after, pk, after.payments[pk].order).Ok?
    ensures StepKeeps(before, EnsureEvidence(after, pk, after.payments[pk].order).value, x)
  {
    hide WithinTotal, Healthy, EnsureRow, CapacityError;
    var done := EnsureEvidence(after, pk, after.payments[pk].order).value;
    ExtsKeepValid(after, done);
    if Healthy(before, x) {
      CollectKeepsHealth(before, after, pk, x);
    }
    if WithinTotal(before, x) {
      CollectKeepsMoney(before, after, pk, x);
    }
    if x in before.orders && NonDrawer(before, x) <= before.orders[x].total {
      CollectedFits(before, after, pk, x);
    }
    hide CountsAgain, NonDrawer;
    hide Valid;
  }

  /** A new collection is either rolled back or recorded within capacity. */
  lemma ConfirmNewKeeps(before: Db, after: Db, pk: nat, accounted: Option<int>, now: int, x: nat)
    requires Valid(before) && Valid(after) && NewlyCollected(before, after, pk)
    requires after.payments[pk].order in before.orders
    requires CapacityError(before, after.payments[pk].order, after.payments[pk].amount).None?
    ensures StepKeeps(before, Confirm(before, after, pk, after.payments[pk].order, accounted, now, true).db, x)
  {
    var o := after.payments[pk].order;
    var r := EnsureEvidence(after, pk, o);
    if r.Ok? {
      var done := r.value;
      EnsureNewKeeps(before, after, pk, x);
      RecomputeKeeps(done, o, accounted, now, x);
      StepThen(before, done, Recompute(done, o, accounted, now), x);
    }
  }

  lemma MarkPaidValid(db: Db, pk: nat, now: int)
    requires Valid(db) && pk < |db.payments| && db.payments[pk].status == Pending
    ensures Valid(MarkPaid(db, pk, now)) && NewlyCollected(db, MarkPaid(db, pk, now), pk)
  {
  }

  lemma AppendValid(db: Db, p: Payment)
    requires Valid(db) && p.order in db.orders && p.key != [] && FindKey(db.payments, p.key).None?
    requires p.Collected()
    ensures Valid(db.(payments := db.payments + [p]))
    ensures NewlyCollected(db, db.(payments := db.payments + [p]), |db.payments|)
  {
    forall i | 0 <= i < |db.payments| ensures db.payments[i].key != p.key {
      assert db.payments[i] in db.payments;
    }
  }

  lemma ReplayKeeps(
    db: Db, pk: nat, o: nat, courier: Option<nat>, provider: Provider, amount: int, now: int, x: nat)
    requires Valid(db) && pk < |db.payments| && o in db.orders
    ensures StepKeeps(db, Replay(db, pk, o, courier, provider, amount, now).db, x)
  {
    hide PaymentEvidence, StepKeeps, Confirm, Recompute, CapacityError;
    KeepsSelf(db, x);
    var p := db.payments[pk];
    if IdentityError(p, o, courier, provider, amount).None? {
      match p.status
      case Paid => ConfirmRepairKeeps(db, pk, Some(now), now, x);
      case Refunded => ConfirmRepairKeeps(db, pk, Some(now), now, x);
      case Failed => RecomputeKeeps(db, o, Some(now), now, x);
      case OtherStatus => RecomputeKeeps(db, o, Some(now), now, x);
      case Pending =>
        if CapacityError(db, o, amount).None? {
          MarkPaidValid(db, pk, now);
          ConfirmNewKeeps(db, MarkPaid(db, pk, now), pk, Some(now), now, x);
        }
    }
  }

  lemma CollectKeeps(
    db: Db, o: nat, courier: Option<nat>, provider: Provider, amount: int, key: Text, now: int, x: nat)
    requires Valid(db) && o in db.orders && key != []
    ensures StepKeeps(db, Collect(db, o, courier, provider, amount, key, now).db, x)
  {
    var found := FindKey(db.payments, key);
    if found.Some? {
      ReplayKeeps(db, found.value, o, courier, provider, amount, now, x);
    } else if CapacityError(db, o, amount).None? {
      var p := NewPayment(db, o, courier, provider, amount, key, now);
      AppendValid(db, p);
      ConfirmNewKeeps(db, db.(payments := db.payments + [p]), |db.payments|, Some(now), now, x);
    }
  }

  lemma CreateKeeps(db: Db, hash: Text -> Text, req: Request, now: int, x: nat)
    requires Valid(db)
    ensures StepKeeps(db, Create(db, hash, req, now).db, x)
  {
    if Refusal(db.orders, req).None? {
      var order := db.orders[req.order];
      CollectKeeps(db, req.order, req.courier, req.provider,
                   AmountOf(order, req.amount), KeyOf(order, hash, req), now, x);
    }
  }

  lemma RecordRefundKeeps(db: Db, pk: nat, now: int, x: nat)
    requires Valid(db) && pk < |db.payments|
    ensures StepKeeps(db, RecordRefund(db, pk, now), x) && SameMoney(db, RecordRefund(db, pk, now), x)
  {
    if x in db.orders {
      SameFolds(db, RecordRefund(db, pk, now), x);
    }
  }

  lemma RefundKeeps(db: Db, pk: nat, coreAccepts: bool, now: int, x: nat)
    requires Valid(db) && pk < |db.payments|
    ensures StepKeeps(db, RefundPayment(db, pk, coreAccepts, now).db, x)
  {
    hide PaymentEvidence, EnsureEvidence, Recompute, RecordRefund;
    KeepsSelf(db, x);
    var p := db.payments[pk];
    if !p.Collected() {
      RecomputeKeeps(db, p.order, None, now, x);
    } else {
      EnsureRepairKeeps(db, pk, x);
      var r := EnsureEvidence(db, pk, p.order);
      if r.Ok? {
        var repaired := r.value;
        RecordRefundKeeps(repaired, pk, now, x);
        StepThen(db, repaired, RecordRefund(repaired, pk, now), x);
      }
    }
  }

  lemma PaidCallbackKeeps(db: Db, pk: nat, now: int, x: nat)
    requires Valid(db) && pk < |db.payments|
    ensures StepKeeps(db, PaidCallback(db, pk, now).db, x)
  {
    hide PaymentEvidence, StepKeeps, Recompute, EnsureEvidence;
    KeepsSelf(db, x);
    var p := db.payments[pk];
    var o := p.order;
    match p.status
    case Paid => ConfirmRepairKeeps(db, pk, None, now, x);
    case Refunded => ConfirmRepairKeeps(db, pk, None, now, x);
    case Failed => RecomputeKeeps(db, o, None, now, x);
    case OtherStatus => RecomputeKeeps(db, o, None, now, x);
    case Pending =>
      MarkPaidValid(db, pk, now);
      if CapacityError(db, o, p.amount).None? {
        ConfirmNewKeeps(db, MarkPaid(db, pk, now), pk, Some(now), now, x);
      }
  }

  /** Failing a pending row takes nothing out of the evidence. */
  lemma FailingKeeps(db: Db, pk: nat, x: nat)
    requires Valid(db) && pk < |db.payments| && db.payments[pk].status == Pending
    ensures StepKeeps(db, db.(payments := db.payments[pk := db.payments[pk].(status := Failed)]), x)
  {
    hide FirstTillFault, FirstExtFault, TillTally, ExtTally, Strip;
    var q := db.payments[pk].(status := Failed);
    if x in db.orders {
      LegacyUpdateUnseen(db.payments, pk, q, x, Mirrored(db.exts, x), db.orders[x].branch);
      SameFolds(db, db.(payments := db.payments[pk := q]), x);
    }
  }

  lemma FailCallbackKeeps(db: Db, pk: nat, now: int, x: nat)
    requires Valid(db) && pk < |db.payments|
    ensures StepKeeps(db, FailCallback(db, pk, now).db, x)
  {
    var p := db.payments[pk];
    var db' := if p.status == Pending then db.(payments := db.payments[pk := p.(status := Failed)]) else db;
    KeepsSelf(db, x);
    if p.status == Pending {
      FailingKeeps(db, pk, x);
    }
    hide PaymentEvidence, Recompute;
    RecomputeKeeps(db', p.order, None, now, x);
    StepThen(db, db', Recompute(db', p.order, None, now), x);
  }

  lemma WebhookKeeps(db: Db, hash: Text -> Text, cb: Callback, now: int, x: nat)
    requires Valid(db)
    ensures StepKeeps(db, Webhook(db, hash, cb, now).db, x)
  {
    KeepsSelf(db, x);
    hide StepKeeps, Valid, Create, PaidCallback, RefundPayment, FailCallback, Resolve, CleanKey;
    match (cb.word, Resolve(db, cb)) {
      case (PaidWord, Some(pk)) => PaidCallbackKeeps(db, pk, now, x);
      case (PaidWord, None) =>
        if cb.order.Some? && cb.order.value in db.orders {
          var o := cb.order.value;
          CreateKeeps(db, hash, Request(db.orders[o].rider, o, cb.provider, cb.amount, CleanKey(cb.key)), now, x);
        }
      case (RefundWord, Some(pk)) => RefundKeeps(db, pk, cb.coreAccepts, now, x);
      case (FailWord, Some(pk)) => FailCallbackKeeps(db, pk, now, x);
      case _ =>
    }
  }

  lemma ApplyKeeps(db: Db, hash: Text -> Text, cmd: Command, x: nat)
    requires Valid(db)
    ensures StepKeeps(db, Apply(db, hash, cmd).db, x)
  {
    KeepsSelf(db, x);
    hide StepKeeps, Valid, Create, RefundPayment, Webhook;
    match cmd
    case DoCreate(req, now) => CreateKeeps(db, hash, req, now, x);
    case DoRefund(pk, coreAccepts, now) =>
      if pk < |db.payments| { RefundKeeps(db, pk, coreAccepts, now, x); }
    case DoWebhook(cb, now) => WebhookKeeps(db, hash, cb, now, x);
  }

  // ----- runs -------------------------------------------------------------------------------

  ghost predicate IsRun(run: seq<Db>, hash: Text -> Text, cmds: seq<Command>) {
    && |run| == |cmds| + 1
    && Valid(run[0])
    && forall i | 0 <= i < |cmds| :: Valid(run[i]) && run[i + 1] == Apply(run[i], hash, cmds[i]).db
  }

  lemma {:induction false} RunKeeps(run: seq<Db>, hash: Text -> Text, cmds: seq<Command>, x: nat, i: nat)
    requires IsRun(run, hash, cmds) && i < |run|
    ensures Keeps(run[0], run[i], x)
  {
    KeepsSelf(run[0], x);
    hide Keeps, Valid, Apply;
    if i > 0 {
      RunKeeps(run, hash, cmds, x, i - 1);
      ApplyKeeps(run[i - 1], hash, cmds[i - 1], x);
      assert run[i] == Apply(run[i - 1], hash, cmds[i - 1]).db;
      KeepsTransitive(run[0], run[i - 1], run[i], x);
    }
  }

  /** No over-collection: through every run of creates, refunds and webhooks, on every branch, the
      till's non-cash money plus synced courier rows plus unmirrored courier rows never exceed the
      order's total, which stays fixed; and readable evidence on a clean branch stays readable. */
  lemma NeverOverCollected(run: seq<Db>, hash: Text -> Text, cmds: seq<Command>, x: nat)
    requires IsRun(run, hash, cmds) && WithinTotal(run[0], x)
    ensures forall i | 0 <= i < |run| ::
      && WithinTotal(run[i], x)
      && run[i].orders[x].total == run[0].orders[x].total
      && (Healthy(run[0], x) ==> Healthy(run[i], x))
  {
    hide WithinTotal, Healthy, Apply, Valid;
    assert x in run[0].orders by { WithinIsThere(run[0], x); }
    forall i | 0 <= i < |run|
      ensures WithinTotal(run[i], x) && x in run[i].orders && run[i].orders[x].total == run[0].orders[x].total
      ensures Healthy(run[0], x) ==> Healthy(run[i], x)
    {
      RunKeeps(run, hash, cmds, x, i);
    }
  }

  lemma WithinIsThere(db: Db, x: nat)
    requires WithinTotal(db, x)
    ensures x in db.orders
  {
  }
}
