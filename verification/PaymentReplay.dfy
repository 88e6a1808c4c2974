/** Repetition and disorder: retried collections and shuffled gateway callbacks. */
module PaymentReplay {
  import opened Common
  import opened Text
  import opened PaymentRows
  import opened PaymentIdentity
  import opened PaymentFold
  import opened PaymentTransactions
  import opened PaymentSafety
  import opened PaymentRuns

  // ----- recorded collections ---------------------------------------------------------------

  /** The collection, its evidence row and the order's header are all in place. */
  ghost predicate Recorded(db: Db, pk: nat) {
    && pk < |db.payments| && db.payments[pk].Collected()
    && var o := db.payments[pk].order;
       o in db.orders && EnsureEvidence(db, pk, o) == Ok(db) && Recompute(db, o, None, 0) == db
  }

  lemma HeaderStays(db: Db, pk: nat, accounted: Option<int>, now: int)
    requires Recorded(db, pk)
    ensures Recompute(db, db.payments[pk].order, accounted, now) == db
  {
    RecomputeTwice(db, db.payments[pk].order, None, 0, accounted, now);
  }

  lemma FindAppended(exts: seq<Ext>, r: Ext)
    requires r.ofCourier && FindExt(exts, r.branch, r.sourceId).None?
    ensures FindExt(exts + [r], r.branch, r.sourceId) == Some(|exts|)
  {
    assert (exts + [r])[..|exts|] == exts;
  }

  /** What was just ensured is found unchanged. */
  lemma EnsureTwice(db: Db, pk: nat)
    requires pk < |db.payments| && db.payments[pk].order in db.orders
    ensures var r := EnsureEvidence(db, pk, db.payments[pk].order);
      r.Ok? ==> EnsureEvidence(r.value, pk, db.payments[pk].order) == Ok(r.value)
  {
    var p := db.payments[pk];
    var r := EnsureEvidence(db, pk, p.order);
    RepairAdds(db, pk);
    if r.Ok? && r.value != db {
      FindAppended(db.exts, MirrorOf(p, p.order, db.orders[p.order].branch));
    }
  }

  lemma EnsureIgnoresHeader(a: Db, b: Db, pk: nat)
    requires pk < |a.payments| && a.payments[pk].order in a.orders && b == a.(orders := b.orders)
    requires a.payments[pk].order in b.orders
    requires a.orders[a.payments[pk].order].branch == b.orders[a.payments[pk].order].branch
    ensures var ra, rb := EnsureEvidence(a, pk, a.payments[pk].order), EnsureEvidence(b, pk, a.payments[pk].order);
      && (ra.Ok? <==> rb.Ok?)
      && (ra.Ok? ==> rb.value == ra.value.(orders := b.orders))
  {
  }

  lemma ConfirmRecords(before: Db, db: Db, pk: nat, accounted: Option<int>, now: int, emits: bool)
    requires pk < |db.payments| && db.payments[pk].order in db.orders
    ensures var step := Confirm(before, db, pk, db.payments[pk].order, accounted, now, emits);
      step.reply.Accepted? ==>
        && step.reply.pk == pk && Recorded(step.db, pk)
        && step.db.payments == db.payments && step.db.refunds == db.refunds
        && step.db.orders.Keys == db.orders.Keys
  {
    var o := db.payments[pk].order;
    var r := EnsureEvidence(db, pk, o);
    if r.Ok? {
      EnsureTwice(db, pk);
      RecomputeFrame(r.value, o, accounted, now);
      EnsureIgnoresHeader(r.value, Recompute(r.value, o, accounted, now), pk);
      RecomputeTwice(r.value, o, accounted, now, None, 0);
    }
  }

  // ----- idempotent collection --------------------------------------------------------------

  /** What a successful collection of `amount` under `key` establishes. */
  ghost predicate Established(
    db: Db, step: Step, o: nat, courier: Option<nat>, provider: Provider, amount: int, key: Text)
  {
    step.reply.Accepted? ==>
      var pk := step.reply.pk;
      && Recorded(step.db, pk) && step.db.refunds == db.refunds
      && (step.reply.emits <==> pk == |db.payments| || (pk < |db.payments| && db.payments[pk].status == Pending))
      && var p := step.db.payments[pk];
         p.order == o && p.courier == courier && p.provider == provider && p.amount == amount && p.key == key
  }

  lemma ReplayRecords(db: Db, pk: nat, o: nat, courier: Option<nat>, provider: Provider, amount: int, now: int)
    requires Valid(db) && pk < |db.payments| && o in db.orders
    ensures Established(db, Replay(db, pk, o, courier, provider, amount, now), o, courier, provider, amount, db.payments[pk].key)
  {
    hide PaymentEvidence, EnsureEvidence;
    if IdentityError(db.payments[pk], o, courier, provider, amount).None? {
      ConfirmRecords(db, db, pk, Some(now), now, false);
      ConfirmRecords(db, MarkPaid(db, pk, now), pk, Some(now), now, true);
    }
  }

  lemma CollectRecords(
    db: Db, o: nat, courier: Option<nat>, provider: Provider, amount: int, key: Text, now: int)
    requires Valid(db) && o in db.orders
    ensures Established(db, Collect(db, o, courier, provider, amount, key, now), o, courier, provider, amount, key)
  {
    hide PaymentEvidence, EnsureEvidence;
    var found := FindKey(db.payments, key);
    if found.Some? {
      ReplayRecords(db, found.value, o, courier, provider, amount, now);
    } else {
      var p := NewPayment(db, o, courier, provider, amount, key, now);
      ConfirmRecords(db, db.(payments := db.payments + [p]), |db.payments|, Some(now), now, true);
    }
  }

  /** A successful create leaves its event recorded under the requested identity, and announces it
      exactly when the row was not already collected. */
  lemma CreateRecords(db: Db, hash: Text -> Text, req: Request, now: int)
    requires Valid(db)
    ensures var step := Create(db, hash, req, now);
      step.reply.Accepted? ==>
        && Refusal(db.orders, req).None?
        && var order := db.orders[req.order];
           Established(db, step, req.order, req.courier, req.provider, AmountOf(order, req.amount), KeyOf(order, hash, req))
  {
    hide Refusal, Collect, Established;
    if Refusal(db.orders, req).None? {
      AdmittedExists(db, req);
      var order := db.orders[req.order];
      CollectRecords(db, req.order, req.courier, req.provider, AmountOf(order, req.amount), KeyOf(order, hash, req), now);
    }
  }

  lemma AdmittedExists(db: Db, req: Request)
    requires Refusal(db.orders, req).None?
    ensures req.order in db.orders && AmountOf(db.orders[req.order], req.amount) > 0
  {
  }

  /** Header derivations leave everything a request is admitted by. */
  ghost predicate SameIdentity(a: Order, b: Order) {
    b == a.(isPaid := b.isPaid, tender := b.tender, paidAt := b.paidAt, accountedAt := b.accountedAt)
  }

  lemma SameIdentityAdmits(a: map<nat, Order>, b: map<nat, Order>, hash: Text -> Text, req: Request)
    requires req.order in a && req.order in b && SameIdentity(a[req.order], b[req.order])
    ensures Refusal(a, req) == Refusal(b, req)
    ensures AmountOf(a[req.order], req.amount) == AmountOf(b[req.order], req.amount)
    ensures KeyOf(a[req.order], hash, req) == KeyOf(b[req.order], hash, req)
  {
    hide CleanKey, ManualKey;
  }

  /** What any outcome of a collection leaves of the tables `db` it started from. */
  ghost predicate Frame(db: Db, step: Step, o: nat) {
    && o in db.orders && o in step.db.orders && SameIdentity(db.orders[o], step.db.orders[o])
    && (!step.reply.Accepted? ==> step.db == db.(orders := step.db.orders))
  }

  lemma ConfirmFrame(before: Db, db: Db, pk: nat, o: nat, accounted: Option<int>, now: int, emits: bool)
    requires pk < |db.payments| && o in db.orders && before.orders == db.orders
    ensures Frame(before, Confirm(before, db, pk, o, accounted, now, emits), o)
  {
    hide EnsureRow, PaymentEvidence;
    var r := EnsureEvidence(db, pk, o);
    if r.Ok? {
      RecomputeFrame(r.value, o, accounted, now);
    }
    hide Recompute;
  }

  lemma RecomputeFrames(db: Db, o: nat, accounted: Option<int>, now: int, reason: Reason)
    requires o in db.orders
    ensures Frame(db, Step(Recompute(db, o, accounted, now), Rejected(reason)), o)
    ensures Frame(db, Step(db, Rejected(reason)), o)
  {
    RecomputeFrame(db, o, accounted, now);
    hide PaymentEvidence, Recompute;
  }

  lemma ReplayFrame(db: Db, pk: nat, o: nat, courier: Option<nat>, provider: Provider, amount: int, now: int)
    requires pk < |db.payments| && o in db.orders
    ensures Frame(db, Replay(db, pk, o, courier, provider, amount, now), o)
  {
    hide PaymentEvidence, Confirm, Recompute, CapacityError, Frame;
    var step := Replay(db, pk, o, courier, provider, amount, now);
    if step.reply.Rejected? {
      RecomputeFrames(db, o, Some(now), now, step.reply.reason);
    }
    ConfirmFrame(db, db, pk, o, Some(now), now, false);
    ConfirmFrame(db, MarkPaid(db, pk, now), pk, o, Some(now), now, true);
  }

  lemma CollectFrame(
    db: Db, o: nat, courier: Option<nat>, provider: Provider, amount: int, key: Text, now: int)
    requires o in db.orders
    ensures Frame(db, Collect(db, o, courier, provider, amount, key, now), o)
  {
    hide PaymentEvidence, Confirm, Recompute, CapacityError, Replay;
    var found := FindKey(db.payments, key);
    if found.Some? {
      ReplayFrame(db, found.value, o, courier, provider, amount, now);
    } else {
      var p := NewPayment(db, o, courier, provider, amount, key, now);
      ConfirmFrame(db, db.(payments := db.payments + [p]), |db.payments|, o, Some(now), now, true);
    }
  }

  /** A collection that names a recorded event changes nothing at all. */
  lemma ReplayIsNoop(db: Db, pk: nat, o: nat, courier: Option<nat>, provider: Provider, amount: int, now: int)
    requires Recorded(db, pk)
    requires var p := db.payments[pk];
      p.order == o && p.courier == courier && p.provider == provider && p.amount == amount
    ensures Replay(db, pk, o, courier, provider, amount, now)
         == Step(db, Accepted(pk, ShownStatus(db, pk), false))
  {
    HeaderStays(db, pk, Some(now), now);
    hide PaymentEvidence, EnsureEvidence, Recompute, ShownStatus;
  }

  /** Only refunds were appended since. */
  ghost predicate OnlyRefundsSince(a: Db, b: Db) {
    b == a.(refunds := b.refunds)
  }

  lemma RefundsKeepRecorded(a: Db, b: Db, pk: nat)
    requires Recorded(a, pk) && OnlyRefundsSince(a, b)
    ensures Recorded(b, pk)
  {
    SameEvidence(a, b, a.payments[pk].order);
    hide PaymentEvidence, Header;
  }

  lemma SameEvidence(a: Db, b: Db, o: nat)
    requires o in a.orders && OnlyRefundsSince(a, b)
    ensures PaymentEvidence(a, o) == PaymentEvidence(b, o)
  {
    hide Settled;
    SameFolds(a, b, o);
  }

  /** Idempotent collection: after a successful create, the same request again - at any later time,
      with or without its own key, also after any refunds - answers with the same row, changes no
      table at all, and announces nothing. */
  lemma CollectOnce(db: Db, hash: Text -> Text, req: Request, now: int, later: Db, now': int)
    requires Valid(db) && Create(db, hash, req, now).reply.Accepted?
    requires OnlyRefundsSince(Create(db, hash, req, now).db, later)
    ensures var pk := Create(db, hash, req, now).reply.pk;
      && pk < |later.payments|
      && Create(later, hash, req, now') == Step(later, Accepted(pk, ShownStatus(later, pk), false))
  {
    var step := Create(db, hash, req, now);
    var pk := step.reply.pk;
    var o := req.order;
    CreateRecords(db, hash, req, now);
    CreateKeeps(db, hash, req, now, o);
    hide Refusal, Collect, Recorded, Replay;
    var amount, key := AmountOf(db.orders[o], req.amount), KeyOf(db.orders[o], hash, req);
    CollectFrame(db, o, req.courier, req.provider, amount, key, now);
    SameIdentityAdmits(db.orders, later.orders, hash, req);
    RefundsKeepRecorded(step.db, later, pk);
    RecordedIsCollected(later, pk);
    ReplayIsNoop(later, pk, o, req.courier, req.provider, amount, now');
    FoundByKey(later, pk);
    FoundCollect(later, o, req.courier, req.provider, amount, key, now', pk);
  }

  lemma RecordedIsCollected(db: Db, pk: nat)
    requires Recorded(db, pk)
    ensures pk < |db.payments| && db.payments[pk].order in db.orders
  {
  }

  lemma FoundByKey(db: Db, pk: nat)
    requires UniqueKeys(db.payments) && pk < |db.payments|
    ensures FindKey(db.payments, db.payments[pk].key) == Some(pk)
  {
    var found := FindKey(db.payments, db.payments[pk].key);
    assert db.payments[pk] in db.payments;
  }

  lemma FoundCollect(
    db: Db, o: nat, courier: Option<nat>, provider: Provider, amount: int, key: Text, now: int, pk: nat)
    requires o in db.orders && pk < |db.payments| && FindKey(db.payments, key) == Some(pk)
    ensures Collect(db, o, courier, provider, amount, key, now) == Replay(db, pk, o, courier, provider, amount, now)
  {
    hide Replay, PaymentEvidence;
  }

  /** A request under a new key with room, a usable branch and a usable key is accepted, and writes its
      row and its evidence. */
  lemma NewIsAccepted(db: Db, hash: Text -> Text, req: Request, now: int)
    requires Refusal(db.orders, req).None?
    requires var order := db.orders[req.order];
      var amount, key := AmountOf(order, req.amount), KeyOf(order, hash, req);
      && FindKey(db.payments, key).None? && CapacityError(db, req.order, amount).None?
      && Strip(order.branch) != [] && Strip(key) != []
      && FindExt(db.exts, Strip(order.branch), key).None?
    ensures var order, step := db.orders[req.order], Create(db, hash, req, now);
      var p := NewPayment(db, req.order, req.courier, req.provider, AmountOf(order, req.amount), KeyOf(order, hash, req), now);
      && step.reply == Accepted(|db.payments|, Paid, true)
      && step.db.payments == db.payments + [p] && step.db.refunds == db.refunds
      && step.db.exts == db.exts + [MirrorOf(p, req.order, order.branch)]
  {
    hide PaymentEvidence, CapacityError, KeyOf, Strip, Header, FindExt;
    AdmittedExists(db, req);
    var order := db.orders[req.order];
    var p := NewPayment(db, req.order, req.courier, req.provider, AmountOf(order, req.amount), KeyOf(order, hash, req), now);
    assert EvidenceClash(p, req.order, order.branch).None?;
    assert (db.payments + [p])[|db.payments|] == p;
  }

  /** A create that loses the race for its key: the winner holds another order's lock, so the loser is
      refused, changes nothing, and answers as if it had come after the winner. */
  lemma LostRaceIsSerial(
    seen: Db, db: Db, o: nat, courier: Option<nat>, provider: Provider, amount: int, key: Text, now: int, pk: nat)
    requires o in db.orders && FindKey(seen.payments, key).None?
    requires seen.payments <= db.payments && FindKey(db.payments, key) == Some(pk)
    requires forall i | |seen.payments| <= i < |db.payments| :: db.payments[i].order != o
    ensures LostRace(db, pk, o, courier, provider, amount, now) == Step(db, Rejected(OtherOrder))
    ensures Collect(db, o, courier, provider, amount, key, now) == LostRace(db, pk, o, courier, provider, amount, now)
  {
    hide Confirm, CapacityError, Recompute;
    forall i | 0 <= i < |seen.payments| ensures db.payments[i].key != key {
      assert seen.payments[i] in seen.payments;
    }
  }

  /** A refused create - in particular one that reuses a key for another order, courier, provider or
      amount - changes no payment, evidence or refund row. */
  lemma RefusalKeepsRows(db: Db, hash: Text -> Text, req: Request, now: int)
    requires Valid(db) && !Create(db, hash, req, now).reply.Accepted?
    ensures Create(db, hash, req, now).db == db.(orders := Create(db, hash, req, now).db.orders)
  {
    hide Refusal, Collect;
    if Refusal(db.orders, req).None? {
      AdmittedExists(db, req);
      var order := db.orders[req.order];
      CollectFrame(db, req.order, req.courier, req.provider, AmountOf(order, req.amount), KeyOf(order, hash, req), now);
    }
  }
}
