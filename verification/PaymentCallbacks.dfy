/** Gateway callbacks on one existing payment, in any order and any number. */
module PaymentCallbacks {
  import opened Common
  import opened Text
  import opened PaymentRows
  import opened PaymentFold
  import opened PaymentTransactions
  import opened PaymentSafety
  import opened PaymentRuns
  import opened PaymentReplay

  datatype Call = Call(word: Word, coreAccepts: bool, now: int)

  predicate On(db: Db, pk: nat) {
    pk < |db.payments| && db.payments[pk].order in db.orders
  }

  lemma PaidStaysOn(db: Db, pk: nat, now: int)
    requires On(db, pk)
    ensures On(PaidCallback(db, pk, now).db, pk)
  {
    hide PaymentEvidence, EnsureRow, Header, ExistingRefund;
  }

  lemma RefundStaysOn(db: Db, pk: nat, coreAccepts: bool, now: int)
    requires On(db, pk)
    ensures On(RefundPayment(db, pk, coreAccepts, now).db, pk)
  {
    hide PaymentEvidence, EnsureRow, Header, ExistingRefund;
  }

  lemma FailStaysOn(db: Db, pk: nat, now: int)
    requires On(db, pk)
    ensures On(FailCallback(db, pk, now).db, pk)
  {
    hide PaymentEvidence, Header;
  }

  /** The tables after one callback. */
  function Deliver(db: Db, pk: nat, c: Call): (after: Db)
    requires On(db, pk)
    ensures On(after, pk)
  {
    hide PaidCallback, RefundPayment, FailCallback;
    match c.word
    case PaidWord => PaidStaysOn(db, pk, c.now); PaidCallback(db, pk, c.now).db
    case RefundWord => RefundStaysOn(db, pk, c.coreAccepts, c.now); RefundPayment(db, pk, c.coreAccepts, c.now).db
    case FailWord => FailStaysOn(db, pk, c.now); FailCallback(db, pk, c.now).db
    case OtherWord => db
  }

  lemma DeliverIsWebhook(db: Db, hash: Text -> Text, pk: nat, c: Call, cb: Callback)
    requires Valid(db) && On(db, pk)
    requires cb.paymentId == Some(pk) && cb.word == c.word && cb.coreAccepts == c.coreAccepts
    ensures Webhook(db, hash, cb, c.now).db == Deliver(db, pk, c)
  {
    hide PaidCallback, RefundPayment, FailCallback, Create, CleanKey, Valid;
  }

  function RunCalls(db: Db, pk: nat, cs: seq<Call>): Db
    requires On(db, pk)
    decreases |cs|
  {
    if cs == [] then db
    else RunCalls(Deliver(db, pk, cs[0]), pk, cs[1..])
  }

  ghost predicate SameRows(a: Db, b: Db) {
    a == b.(orders := a.orders)
  }

  // ----- a pending payment ------------------------------------------------------------------

  /** A pending payment takes this callback as its final word. */
  predicate Accepts(db: Db, pk: nat, c: Call)
    requires On(db, pk)
  {
    var p := db.payments[pk];
    && p.status == Pending
    && (|| c.word == FailWord
        || (&& c.word == PaidWord
            && CapacityError(db, p.order, p.amount).None?
            && db.orders[p.order].branch != []
            && EnsureEvidence(MarkPaid(db, pk, c.now), pk, p.order).Ok?))
  }

  lemma RefusedChangesNoRow(db: Db, pk: nat, c: Call)
    requires On(db, pk) && db.payments[pk].status == Pending && !Accepts(db, pk, c)
    ensures var o := db.payments[pk].order;
      Deliver(db, pk, c) == db || Deliver(db, pk, c) == Recompute(db, o, None, c.now)
  {
    hide PaymentEvidence, EnsureRow;
  }

  /** Room for a further amount is not decided by the header the evidence implies. */
  lemma CapacityIgnoresHeader(db: Db, o: nat, amount: int, accounted: Option<int>, now: int)
    requires o in db.orders
    ensures CapacityError(Recompute(db, o, accounted, now), o, amount) == CapacityError(db, o, amount)
  {
    RecomputeFrame(db, o, accounted, now);
    if PaymentEvidence(db, o).Ok? {
      EvidenceBounds(db, o);
    }
    hide PaymentEvidence;
  }

  /** A header derivation never falls back on the clock. */
  lemma RecomputeClock(db: Db, o: nat, accounted: Option<int>, now: int, now': int)
    requires o in db.orders
    ensures Recompute(db, o, accounted, now) == Recompute(db, o, accounted, now')
  {
    if PaymentEvidence(db, o).Ok? {
      EvidenceBounds(db, o);
    }
    hide PaymentEvidence;
  }

  /** The header is either as stored or freshly re-derived. */
  predicate HeaderLag(a: Db, b: Db, o: nat) {
    o in a.orders && (b == a || b == Recompute(a, o, None, 0))
  }

  lemma LagIsTransitive(a: Db, b: Db, o: nat, now: int)
    requires HeaderLag(a, b, o)
    ensures o in b.orders && HeaderLag(a, Recompute(b, o, None, now), o)
  {
    hide PaymentEvidence, Header;
    RecomputeClock(a, o, None, now, 0);
    RecomputeTwice(a, o, None, 0, None, now);
  }

  lemma LagIsRows(a: Db, b: Db, o: nat)
    requires HeaderLag(a, b, o)
    ensures SameRows(a, b) && o in b.orders && SameIdentity(a.orders[o], b.orders[o])
  {
    hide PaymentEvidence;
  }

  lemma CapacityAgrees(a: Db, b: Db, o: nat, amount: int)
    requires HeaderLag(a, b, o)
    ensures o in b.orders && CapacityError(b, o, amount) == CapacityError(a, o, amount)
  {
    LagIsRows(a, b, o);
    hide PaymentEvidence, CapacityError;
    CapacityIgnoresHeader(a, o, amount, None, 0);
  }

  /** Whether a word is accepted, and the rows it leaves, do not depend on the header's lag. */
  lemma LagAccepts(a: Db, b: Db, pk: nat, c: Call)
    requires On(a, pk) && HeaderLag(a, b, a.payments[pk].order)
    ensures On(b, pk) && (Accepts(a, pk, c) <==> Accepts(b, pk, c))
    ensures Accepts(a, pk, c) ==> SameRows(Settle(a, pk, c), Settle(b, pk, c))
  {
    var p := a.payments[pk];
    LagIsRows(a, b, p.order);
    CapacityAgrees(a, b, p.order, p.amount);
    hide CapacityError, EnsureRow, HeaderLag;
  }

  /** The rows an accepted word leaves. */
  function Settle(db: Db, pk: nat, c: Call): Db
    requires On(db, pk) && Accepts(db, pk, c)
  {
    var p := db.payments[pk];
    if c.word == FailWord then db.(payments := db.payments[pk := p.(status := Failed)])
    else EnsureEvidence(MarkPaid(db, pk, c.now), pk, p.order).value
  }

  lemma DeliverSettles(db: Db, pk: nat, c: Call)
    requires On(db, pk) && Accepts(db, pk, c)
    ensures var done := Deliver(db, pk, c);
      && SameRows(done, Settle(db, pk, c)) && On(done, pk)
      && done.payments[pk].status == (if c.word == FailWord then Failed else Paid)
      && (c.word == PaidWord ==> Recorded(done, pk) && done.orders[done.payments[pk].order].branch != [])
  {
    var p := db.payments[pk];
    if c.word == FailWord {
      var failed := db.(payments := db.payments[pk := p.(status := Failed)]);
      RecomputeFrame(failed, p.order, None, c.now);
      hide PaymentEvidence, Recompute;
    } else {
      var paid := MarkPaid(db, pk, c.now);
      ConfirmRecords(db, paid, pk, Some(c.now), c.now, true);
      ConfirmFrame(db, paid, pk, p.order, Some(c.now), c.now, true);
      RecomputeFrame(Settle(db, pk, c), p.order, Some(c.now), c.now);
      hide PaymentEvidence, Recompute, EnsureRow, CapacityError, Recorded;
    }
  }

  // ----- a settled payment ------------------------------------------------------------------

  /** A failed payment, and one in a status the service does not know, ignores every later word. */
  lemma DeadIgnores(db: Db, pk: nat, c: Call)
    requires On(db, pk) && (db.payments[pk].status == Failed || db.payments[pk].status == OtherStatus)
    ensures SameRows(Deliver(db, pk, c), db) && On(Deliver(db, pk, c), pk)
  {
    RecomputeFrame(db, db.payments[pk].order, None, c.now);
    hide PaymentEvidence, Recompute;
  }

  ghost predicate PaidUp(db: Db, pk: nat) {
    && On(db, pk) && db.payments[pk].status == Paid && Recorded(db, pk)
    && db.orders[db.payments[pk].order].branch != []
  }

  lemma RecordedFacts(db: Db, pk: nat, now: int)
    requires PaidUp(db, pk)
    ensures var o := db.payments[pk].order;
      EnsureEvidence(db, pk, o) == Ok(db) && Recompute(db, o, None, now) == db
  {
    HeaderStays(db, pk, None, now);
  }

  lemma PaidHearsPaid(db: Db, pk: nat, now: int)
    requires PaidUp(db, pk)
    ensures PaidCallback(db, pk, now).db == db
  {
    RecordedFacts(db, pk, now);
    hide PaymentEvidence, EnsureEvidence, Recompute, Recorded, ShownStatus, CapacityError;
  }

  lemma PaidHearsFail(db: Db, pk: nat, now: int)
    requires PaidUp(db, pk)
    ensures FailCallback(db, pk, now).db == db
  {
    RecordedFacts(db, pk, now);
    hide PaymentEvidence, EnsureEvidence, Recompute, Recorded;
  }

  lemma RefundOfMirrored(db: Db, pk: nat, coreAccepts: bool, now: int)
    requires On(db, pk) && db.payments[pk].status == Paid
    requires db.orders[db.payments[pk].order].branch != []
    requires EnsureEvidence(db, pk, db.payments[pk].order) == Ok(db)
    ensures RefundPayment(db, pk, coreAccepts, now).db == if coreAccepts then RecordRefund(db, pk, now) else db
  {
    hide EnsureEvidence, PaymentEvidence, ExistingRefund, Recompute;
  }

  lemma PaidHearsRefund(db: Db, pk: nat, coreAccepts: bool, now: int)
    requires PaidUp(db, pk)
    ensures RefundPayment(db, pk, coreAccepts, now).db == if coreAccepts then RecordRefund(db, pk, now) else db
  {
    hide EnsureEvidence, RefundPayment, Recorded, RecordRefund;
    RecordedFacts(db, pk, now);
    RefundOfMirrored(db, pk, coreAccepts, now);
  }

  lemma RefundKeepsPaidUp(db: Db, pk: nat, now: int)
    requires PaidUp(db, pk)
    ensures PaidUp(RecordRefund(db, pk, now), pk)
  {
    hide PaymentEvidence, EnsureEvidence, Recompute;
    RefundsKeepRecorded(db, RecordRefund(db, pk, now), pk);
  }

  /** A recorded payment answers only its first accepted refund word, and no word touches its
      header, evidence or status. */
  lemma PaidAnswersRefund(db: Db, pk: nat, c: Call)
    requires PaidUp(db, pk)
    ensures Deliver(db, pk, c) == if c.word == RefundWord && c.coreAccepts then RecordRefund(db, pk, c.now) else db
    ensures PaidUp(Deliver(db, pk, c), pk)
  {
    PaidHearsPaid(db, pk, c.now);
    PaidHearsFail(db, pk, c.now);
    PaidHearsRefund(db, pk, c.coreAccepts, c.now);
    RefundKeepsPaidUp(db, pk, c.now);
    hide PaidCallback, FailCallback, RefundPayment, RecordRefund, PaidUp;
  }

  function FirstRefund(cs: seq<Call>): Option<int> {
    if cs == [] then None
    else if cs[0].word == RefundWord && cs[0].coreAccepts then Some(cs[0].now)
    else FirstRefund(cs[1..])
  }

  /** The ledger of a paid collection after further callbacks. */
  function WithRefund(db: Db, pk: nat, at: Option<int>): Db
    requires On(db, pk)
  {
    if at.None? then db else RecordRefund(db, pk, at.value)
  }

  lemma {:induction false} PaidRun(db: Db, pk: nat, cs: seq<Call>)
    requires PaidUp(db, pk)
    ensures RunCalls(db, pk, cs) == WithRefund(db, pk, FirstRefund(cs))
    decreases |cs|
  {
    if cs != [] {
      PaidAnswersRefund(db, pk, cs[0]);
      PaidRun(Deliver(db, pk, cs[0]), pk, cs[1..]);
      if cs[0].word == RefundWord && cs[0].coreAccepts {
        RefundedIsKnown(db, pk, cs[0].now);
      }
    }
    hide PaidUp, Deliver;
  }

  lemma RefundedIsKnown(db: Db, pk: nat, now: int)
    requires pk < |db.payments|
    ensures ExistingRefund(RecordRefund(db, pk, now).refunds, db.payments[pk].key)
  {
    var r := RecordRefund(db, pk, now).refunds;
    if !ExistingRefund(db.refunds, db.payments[pk].key) {
      assert r[|r| - 1] in r;
    }
  }

  // ----- a payment that was collected before its first callback --------------------------------

  /** The evidence of the collected payment can be written or found. */
  predicate Evidenced(db: Db, pk: nat)
    requires On(db, pk)
  {
    var o := db.payments[pk].order;
    db.orders[o].branch != [] && EnsureEvidence(db, pk, o).Ok?
  }

  function WithEvidence(db: Db, pk: nat): Db
    requires On(db, pk) && Evidenced(db, pk)
  {
    EnsureEvidence(db, pk, db.payments[pk].order).value
  }

  /** A paid or refund word makes the service look at the evidence. */
  predicate Repairs(c: Call) {
    c.word == PaidWord || c.word == RefundWord
  }

  predicate Refunds(db: Db, pk: nat, c: Call)
    requires On(db, pk)
  {
    db.payments[pk].status == Paid && c.word == RefundWord && c.coreAccepts
  }

  /** The rows one word leaves of a collected payment. */
  function RepairRows(db: Db, pk: nat, c: Call): (after: Db)
    requires On(db, pk)
    ensures On(after, pk)
  {
    if !Repairs(c) || !Evidenced(db, pk) then db
    else if Refunds(db, pk, c) then RecordRefund(WithEvidence(db, pk), pk, c.now)
    else WithEvidence(db, pk)
  }

  lemma PaidRepairs(db: Db, pk: nat, now: int)
    requires On(db, pk) && db.payments[pk].Collected()
    ensures SameRows(PaidCallback(db, pk, now).db, if Evidenced(db, pk) then WithEvidence(db, pk) else db)
  {
    var o := db.payments[pk].order;
    var r := EnsureEvidence(db, pk, o);
    if r.Ok? {
      RecomputeFrame(r.value, o, None, now);
    }
    hide PaymentEvidence, EnsureRow, Recompute, ShownStatus, CapacityError;
  }

  lemma RefundRepairs(db: Db, pk: nat, coreAccepts: bool, now: int)
    requires On(db, pk) && db.payments[pk].Collected()
    ensures RefundPayment(db, pk, coreAccepts, now).db == RepairRows(db, pk, Call(RefundWord, coreAccepts, now))
  {
    hide PaymentEvidence, EnsureRow, Recompute, ExistingRefund;
    if Evidenced(db, pk) && ExistingRefund(WithEvidence(db, pk).refunds, db.payments[pk].key) {
      assert RecordRefund(WithEvidence(db, pk), pk, now) == WithEvidence(db, pk);
    }
  }

  lemma FailLeavesRows(db: Db, pk: nat, now: int)
    requires On(db, pk) && db.payments[pk].status != Pending
    ensures SameRows(FailCallback(db, pk, now).db, db)
  {
    RecomputeFrame(db, db.payments[pk].order, None, now);
    hide PaymentEvidence, Recompute;
  }

  lemma CollectedHears(db: Db, pk: nat, c: Call)
    requires On(db, pk) && db.payments[pk].Collected()
    ensures SameRows(Deliver(db, pk, c), RepairRows(db, pk, c))
  {
    hide PaidCallback, RefundPayment, FailCallback, Evidenced, WithEvidence, RecordRefund;
    match c.word
    case PaidWord => PaidRepairs(db, pk, c.now);
    case RefundWord => RefundRepairs(db, pk, c.coreAccepts, c.now);
    case FailWord => FailLeavesRows(db, pk, c.now);
    case OtherWord =>
  }

  /** What rows a payment's evidence and refund leave does not depend on its order's header. */
  lemma RepairIgnoresHeader(a: Db, b: Db, pk: nat, c: Call)
    requires On(a, pk) && On(b, pk) && SameRows(a, b)
    requires var o := a.payments[pk].order; a.orders[o].branch == b.orders[o].branch
    ensures SameRows(RepairRows(a, pk, c), RepairRows(b, pk, c))
    ensures RepairRows(a, pk, c).orders == a.orders && RepairRows(b, pk, c).orders == b.orders
  {
    hide EnsureRow, ExistingRefund;
  }

  lemma DeliverKeepsBranch(db: Db, pk: nat, c: Call)
    requires On(db, pk) && db.payments[pk].Collected()
    ensures var after, o := Deliver(db, pk, c), db.payments[pk].order;
      after.payments[pk] == db.payments[pk] && after.orders[o].branch == db.orders[o].branch
  {
    var o := db.payments[pk].order;
    CollectedHears(db, pk, c);
    RepairKeepsPayment(db, pk, c);
    DeliverKeepsIdentity(db, pk, c);
    hide Deliver, RepairRows;
  }

  lemma RepairKeepsPayment(db: Db, pk: nat, c: Call)
    requires On(db, pk)
    ensures RepairRows(db, pk, c).payments == db.payments
  {
    hide EnsureRow, ExistingRefund;
  }

  lemma PaidKeepsIdentity(db: Db, pk: nat, now: int)
    requires On(db, pk) && db.payments[pk].Collected()
    ensures var o, after := db.payments[pk].order, PaidCallback(db, pk, now).db;
      o in after.orders && SameIdentity(db.orders[o], after.orders[o])
  {
    hide PaymentEvidence, EnsureRow, Recompute, Confirm, ShownStatus, CapacityError;
    var o := db.payments[pk].order;
    var r := EnsureEvidence(db, pk, o);
    ConfirmFrame(db, db, pk, o, None, now, false);
    if r.Ok? {
      RecomputeFrame(r.value, o, None, now);
    }
  }

  lemma FailKeepsIdentity(db: Db, pk: nat, now: int)
    requires On(db, pk) && db.payments[pk].Collected()
    ensures var o, after := db.payments[pk].order, FailCallback(db, pk, now).db;
      o in after.orders && SameIdentity(db.orders[o], after.orders[o])
  {
    RecomputeFrame(db, db.payments[pk].order, None, now);
    hide PaymentEvidence, Recompute;
  }

  lemma RefundKeepsOrders(db: Db, pk: nat, coreAccepts: bool, now: int)
    requires On(db, pk) && db.payments[pk].Collected()
    ensures RefundPayment(db, pk, coreAccepts, now).db.orders == db.orders
  {
    hide PaymentEvidence, EnsureRow, ExistingRefund, Recompute;
  }

  lemma DeliverKeepsIdentity(db: Db, pk: nat, c: Call)
    requires On(db, pk) && db.payments[pk].Collected()
    ensures var o := db.payments[pk].order;
      o in Deliver(db, pk, c).orders && SameIdentity(db.orders[o], Deliver(db, pk, c).orders[o])
  {
    hide PaidCallback, RefundPayment, FailCallback;
    match c.word
    case PaidWord => PaidKeepsIdentity(db, pk, c.now);
    case RefundWord => RefundKeepsOrders(db, pk, c.coreAccepts, c.now);
    case FailWord => FailKeepsIdentity(db, pk, c.now);
    case OtherWord =>
  }

  /** The rows a collected payment ends with: its evidence once any paid or refund word came, and
      the refund of the first accepted refund word if it stood as paid. */
  function CollectedVerdict(db: Db, pk: nat, cs: seq<Call>): Db
    requires On(db, pk)
  {
    if !Evidenced(db, pk) || !(exists c :: c in cs && Repairs(c)) then db
    else if db.payments[pk].status == Paid then WithRefund(WithEvidence(db, pk), pk, FirstRefund(cs))
    else WithEvidence(db, pk)
  }

  lemma {:induction false} UntouchedIsUnrefunded(cs: seq<Call>)
    requires forall c | c in cs :: !Repairs(c)
    ensures FirstRefund(cs) == None
  {
    if cs != [] {
      assert cs[0] in cs;
      UntouchedIsUnrefunded(cs[1..]);
    }
  }

  /** After a repair the evidence is found as it is, also after a refund. */
  lemma RepairedStays(db: Db, pk: nat, c: Call)
    requires On(db, pk) && Evidenced(db, pk) && Repairs(c)
    ensures var after := RepairRows(db, pk, c); Evidenced(after, pk) && WithEvidence(after, pk) == after
  {
    EnsureTwice(db, pk);
    hide EnsureRow, ExistingRefund;
    var d := WithEvidence(db, pk);
    EnsureKeepsTables(db, pk);
    assert EnsureRow(d.exts, d.payments[pk], d.payments[pk].order, d.orders[d.payments[pk].order].branch) == Ok(d.exts);
  }

  lemma EnsureKeepsTables(db: Db, pk: nat)
    requires On(db, pk) && Evidenced(db, pk)
    ensures WithEvidence(db, pk) == db.(exts := WithEvidence(db, pk).exts)
  {
    hide EnsureRow;
  }

  lemma VerdictAfterRepair(db: Db, pk: nat, cs: seq<Call>)
    requires On(db, pk) && cs != []
    ensures CollectedVerdict(RepairRows(db, pk, cs[0]), pk, cs[1..]) == CollectedVerdict(db, pk, cs)
  {
    hide ExistingRefund, EnsureEvidence, RecordRefund;
    var c, rest := cs[0], cs[1..];
    assert forall x :: x in cs <==> x == c || x in rest;
    if Evidenced(db, pk) && Repairs(c) {
      RepairedStays(db, pk, c);
      RepairKeepsPayment(db, pk, c);
      assert c in cs;
      if !(exists x :: x in rest && Repairs(x)) {
        UntouchedIsUnrefunded(rest);
      }
      EnsureKeepsTables(db, pk);
      if Refunds(db, pk, c) && FirstRefund(rest).Some? {
        RefundedIsKnown(WithEvidence(db, pk), pk, c.now);
        KnownIsKept(RepairRows(db, pk, c), pk, FirstRefund(rest).value);
      }
    }
    hide Evidenced, WithEvidence;
  }

  lemma KnownIsKept(db: Db, pk: nat, now: int)
    requires pk < |db.payments| && ExistingRefund(db.refunds, db.payments[pk].key)
    ensures RecordRefund(db, pk, now) == db
  {
  }

  lemma {:induction false} CollectedRun(db: Db, lag: Db, pk: nat, cs: seq<Call>)
    requires On(db, pk) && On(lag, pk) && db.payments[pk].Collected() && SameRows(db, lag)
    requires var o := db.payments[pk].order; lag.orders[o].branch == db.orders[o].branch
    ensures SameRows(RunCalls(lag, pk, cs), CollectedVerdict(db, pk, cs))
    decreases |cs|
  {
    hide Deliver, RepairRows, CollectedVerdict;
    if cs != [] {
      var c := cs[0];
      CollectedHears(lag, pk, c);
      RepairIgnoresHeader(db, lag, pk, c);
      RepairKeepsPayment(db, pk, c);
      DeliverKeepsBranch(lag, pk, c);
      CollectedRun(RepairRows(db, pk, c), Deliver(lag, pk, c), pk, cs[1..]);
      VerdictAfterRepair(db, pk, cs);
    } else {
      assert CollectedVerdict(db, pk, cs) == db by { VerdictOfNone(db, pk); }
    }
  }

  lemma VerdictOfNone(db: Db, pk: nat)
    requires On(db, pk)
    ensures CollectedVerdict(db, pk, []) == db
  {
    hide Evidenced;
  }

  /** A row in any other status ignores every word. */
  lemma {:induction false} DeadRun(db: Db, lag: Db, pk: nat, cs: seq<Call>)
    requires On(db, pk) && On(lag, pk) && SameRows(db, lag)
    requires db.payments[pk].status == Failed || db.payments[pk].status == OtherStatus
    ensures SameRows(RunCalls(lag, pk, cs), db)
    decreases |cs|
  {
    if cs != [] {
      DeadIgnores(lag, pk, cs[0]);
      DeadRun(db, Deliver(lag, pk, cs[0]), pk, cs[1..]);
    }
    hide Deliver;
  }

  // ----- any list of callbacks --------------------------------------------------------------

  /** The position of the first word the payment, as it stands, accepts as final. */
  function FirstAccepted(db: Db, pk: nat, cs: seq<Call>): (i: Option<nat>)
    requires On(db, pk)
    ensures i.Some? ==> i.value < |cs| && Accepts(db, pk, cs[i.value])
  {
    if cs == [] then None
    else if Accepts(db, pk, cs[0]) then Some(0)
    else
      match FirstAccepted(db, pk, cs[1..])
      case None => None
      case Some(i) => Some(i + 1)
  }

  /** The ledger of a pending payment as a function of the first accepted word and the first refund
      word after it. */
  function PendingVerdict(db: Db, pk: nat, cs: seq<Call>): Db
    requires On(db, pk)
  {
    match FirstAccepted(db, pk, cs)
    case None => db
    case Some(i) =>
      var settled := Settle(db, pk, cs[i]);
      if cs[i].word == FailWord then settled
      else WithRefund(settled, pk, FirstRefund(cs[i + 1..]))
  }

  /** The rows a list of callbacks ends with, whatever status the payment starts in. */
  function Verdict(db: Db, pk: nat, cs: seq<Call>): Db
    requires On(db, pk)
  {
    if db.payments[pk].status == Pending then PendingVerdict(db, pk, cs)
    else if db.payments[pk].Collected() then CollectedVerdict(db, pk, cs)
    else db
  }

  /** Order independence: whatever callbacks a payment receives and whatever status it starts in, its
      payment, evidence and refund rows end as `Verdict` says. Refused words before the first
      accepted one, late paid and failed words, and repeated refunds leave no trace. */
  lemma CallbacksInAnyOrder(db: Db, pk: nat, cs: seq<Call>)
    requires On(db, pk)
    ensures SameRows(RunCalls(db, pk, cs), Verdict(db, pk, cs))
  {
    hide RunCalls, PendingVerdict, CollectedVerdict;
    if db.payments[pk].status == Pending {
      PendingRun(db, db, pk, cs);
    } else if db.payments[pk].Collected() {
      CollectedRun(db, db, pk, cs);
    } else {
      DeadRun(db, db, pk, cs);
    }
  }

  lemma {:induction false} PendingRun(db: Db, lag: Db, pk: nat, cs: seq<Call>)
    requires On(db, pk) && db.payments[pk].status == Pending
    requires HeaderLag(db, lag, db.payments[pk].order) && On(lag, pk)
    ensures SameRows(RunCalls(lag, pk, cs), PendingVerdict(db, pk, cs))
    decreases |cs|
  {
    var o := db.payments[pk].order;
    LagIsRows(db, lag, o);
    if cs != [] {
      var c := cs[0];
      LagAccepts(db, lag, pk, c);
      if Accepts(db, pk, c) {
        DeliverSettles(lag, pk, c);
        var done := Deliver(lag, pk, c);
        if c.word == FailWord {
          DeadRun(done, done, pk, cs[1..]);
        } else {
          PaidRun(done, pk, cs[1..]);
          RefundOnRows(done, Settle(db, pk, c), pk, FirstRefund(cs[1..]));
        }
      } else {
        RefusedChangesNoRow(lag, pk, c);
        LagIsTransitive(db, lag, o, c.now);
        PendingRun(db, Deliver(lag, pk, c), pk, cs[1..]);
        PendingSkips(db, pk, cs);
      }
    }
    hide Deliver, Accepts, Settle, HeaderLag;
  }

  lemma RefundOnRows(a: Db, b: Db, pk: nat, at: Option<int>)
    requires On(a, pk) && On(b, pk) && SameRows(a, b)
    ensures SameRows(WithRefund(a, pk, at), WithRefund(b, pk, at))
  {
  }

  lemma PendingSkips(db: Db, pk: nat, cs: seq<Call>)
    requires On(db, pk) && cs != [] && !Accepts(db, pk, cs[0])
    ensures PendingVerdict(db, pk, cs) == PendingVerdict(db, pk, cs[1..])
  {
    hide Accepts, Settle;
    var rest := FirstAccepted(db, pk, cs[1..]);
    if rest.Some? {
      assert cs[1..][rest.value] == cs[rest.value + 1];
      assert cs[1..][rest.value + 1..] == cs[rest.value + 1 + 1..];
    }
  }

  // ----- what decides the outcome -----------------------------------------------------------

  /** What a history comes down to. */
  datatype Decision =
    | Undecided | DecidedFailed | DecidedPaid(at: int, refundedAt: Option<int>)
    | Repaired(refundedAt: Option<int>)

  function Decide(db: Db, pk: nat, cs: seq<Call>): Decision
    requires On(db, pk)
  {
    if db.payments[pk].status == Pending then
      match FirstAccepted(db, pk, cs)
      case None => Undecided
      case Some(i) =>
        if cs[i].word == FailWord then DecidedFailed
        else DecidedPaid(cs[i].now, FirstRefund(cs[i + 1..]))
    else if exists c :: c in cs && Repairs(c) then Repaired(FirstRefund(cs))
    else Undecided
  }

  lemma PendingOfDecision(db: Db, pk: nat, cs: seq<Call>, ds: seq<Call>)
    requires On(db, pk) && db.payments[pk].status == Pending && Decide(db, pk, cs) == Decide(db, pk, ds)
    ensures PendingVerdict(db, pk, cs) == PendingVerdict(db, pk, ds)
  {
    hide FirstAccepted, FirstRefund, Accepts, EnsureEvidence, WithRefund;
  }

  lemma CollectedOfDecision(db: Db, pk: nat, cs: seq<Call>, ds: seq<Call>)
    requires On(db, pk) && db.payments[pk].status != Pending && Decide(db, pk, cs) == Decide(db, pk, ds)
    ensures CollectedVerdict(db, pk, cs) == CollectedVerdict(db, pk, ds)
  {
    hide FirstRefund, Evidenced, WithEvidence, WithRefund, Repairs;
  }

  lemma VerdictOfDecision(db: Db, pk: nat, cs: seq<Call>, ds: seq<Call>)
    requires On(db, pk) && Decide(db, pk, cs) == Decide(db, pk, ds)
    ensures Verdict(db, pk, cs) == Verdict(db, pk, ds)
  {
    hide PendingVerdict, CollectedVerdict, Decide;
    if db.payments[pk].status == Pending {
      PendingOfDecision(db, pk, cs, ds);
    } else {
      CollectedOfDecision(db, pk, cs, ds);
    }
  }

  /** Two histories with the same decision leave the same payment, evidence and refund rows, whatever
      else they contain in whatever order, from any status. */
  lemma OnlyTheDecisionMatters(db: Db, pk: nat, cs: seq<Call>, ds: seq<Call>)
    requires On(db, pk) && Decide(db, pk, cs) == Decide(db, pk, ds)
    ensures SameRows(RunCalls(db, pk, cs), RunCalls(db, pk, ds))
  {
    hide RunCalls, Verdict, Decide;
    CallbacksInAnyOrder(db, pk, cs);
    CallbacksInAnyOrder(db, pk, ds);
    VerdictOfDecision(db, pk, cs, ds);
  }

  // ----- the header of a decided history ------------------------------------------------------

  /** The tables right after the deciding word. */
  function Decided(db: Db, pk: nat, c: Call): Db
    requires On(db, pk) && Accepts(db, pk, c)
  {
    var o := db.payments[pk].order;
    SettleKeepsOrders(db, pk, c);
    Recompute(Settle(db, pk, c), o, if c.word == FailWord then None else Some(c.now), if c.word == FailWord then 0 else c.now)
  }

  lemma SettleKeepsOrders(db: Db, pk: nat, c: Call)
    requires On(db, pk) && Accepts(db, pk, c)
    ensures Settle(db, pk, c).orders == db.orders && Settle(db, pk, c).refunds == db.refunds
  {
    hide EnsureRow, CapacityError;
  }

  lemma DeliverIsDecided(db: Db, pk: nat, c: Call)
    requires On(db, pk) && Accepts(db, pk, c)
    ensures Deliver(db, pk, c) == Decided(db, pk, c)
  {
    hide EnsureRow, PaymentEvidence, Header, CapacityError, ShownStatus;
    var o := db.payments[pk].order;
    SettleKeepsOrders(db, pk, c);
    if c.word == FailWord {
      RecomputeClock(Settle(db, pk, c), o, None, c.now, 0);
    }
  }

  /** A header that was re-derived over evidence short of the total leaves no trace in the next one. */
  lemma ShortHeaderFades(order: Order, before: Evidence, e: Evidence, accounted: Option<int>, now: int)
    requires before.total < before.due == e.due
    ensures Header(Header(order, before, None, 0), e, accounted, now) == Header(order, e, accounted, now)
  {
    hide TheOnly;
  }

  /** The evidence after the deciding word makes up for a header derivation before it. */
  ghost predicate Overrides(before: Result<Evidence, Unreadable>, after: Result<Evidence, Unreadable>, accounted: Option<int>) {
    match (before, after)
    case (Err(_), _) => true
    case (Ok(_), Err(_)) => false
    case (Ok(x), Ok(e)) => x.due == e.due && (x.total < x.due || (x == e && accounted == None))
  }

  lemma LaggedHeader(order: Order, before: Evidence, e: Evidence, accounted: Option<int>, now: int)
    requires Overrides(Ok(before), Ok(e), accounted)
    requires e.total > 0 ==> e.paidAt.Some?
    ensures Header(Header(order, before, None, 0), e, accounted, now) == Header(order, e, accounted, now)
  {
    if before.total < before.due {
      ShortHeaderFades(order, before, e, accounted, now);
    } else {
      HeaderTwice(order, e, None, 0, accounted, now);
      HeaderClock(order, e, 0, now);
    }
    hide Header;
  }

  /** The same tables whether the header was derived before the deciding word or not. */
  lemma LagDecidesHeader(a: Db, b: Db, o: nat, settled: Db, accounted: Option<int>, now: int)
    requires o in a.orders && b == Recompute(a, o, None, 0) && settled.orders == a.orders
    requires Overrides(PaymentEvidence(a, o), PaymentEvidence(settled, o), accounted)
    ensures var lagged := settled.(orders := b.orders);
      o in b.orders && Recompute(lagged, o, accounted, now) == Recompute(settled, o, accounted, now)
  {
    hide PaymentEvidence, Header;
    RecomputeFrame(a, o, None, 0);
    var lagged := settled.(orders := b.orders);
    SameSettlement(settled, lagged, o);
    if PaymentEvidence(a, o).Ok? && PaymentEvidence(settled, o).Ok? {
      var before, e := PaymentEvidence(a, o).value, PaymentEvidence(settled, o).value;
      EvidenceBounds(settled, o);
      LaggedHeader(a.orders[o], before, e, accounted, now);
      assert lagged.orders[o := Header(a.orders[o], e, accounted, now)] == settled.orders[o := Header(a.orders[o], e, accounted, now)];
    }
  }

  lemma HeaderClock(order: Order, e: Evidence, now: int, now': int)
    requires e.total > 0 ==> e.paidAt.Some?
    ensures Header(order, e, None, now) == Header(order, e, None, now')
  {
    hide TheOnly;
  }

  lemma SameSettlement(a: Db, b: Db, o: nat)
    requires o in a.orders && o in b.orders && b == a.(orders := b.orders) && SameIdentity(a.orders[o], b.orders[o])
    ensures PaymentEvidence(a, o) == PaymentEvidence(b, o)
  {
    hide Settled;
  }

  lemma FailingSettles(db: Db, pk: nat, c: Call)
    requires On(db, pk) && Accepts(db, pk, c) && c.word == FailWord
    ensures var o := db.payments[pk].order;
      o in Settle(db, pk, c).orders && PaymentEvidence(Settle(db, pk, c), o) == PaymentEvidence(db, o)
  {
    SettleKeepsOrders(db, pk, c);
    var p := db.payments[pk];
    LegacyUpdateUnseen(db.payments, pk, p.(status := Failed), p.order, Mirrored(db.exts, p.order), db.orders[p.order].branch);
    SameFolds(db, Settle(db, pk, c), p.order);
    hide PaymentEvidence;
  }

  lemma PayingSettles(db: Db, pk: nat, c: Call)
    requires Valid(db) && On(db, pk) && Accepts(db, pk, c) && c.word == PaidWord
    requires CleanBranch(db.orders[db.payments[pk].order].branch)
    ensures var o := db.payments[pk].order;
      o in Settle(db, pk, c).orders && Overrides(PaymentEvidence(db, o), PaymentEvidence(Settle(db, pk, c), o), Some(c.now))
  {
    hide PaymentEvidence, CleanBranch, EnsureRow;
    SettleKeepsOrders(db, pk, c);
    var p := db.payments[pk];
    var o := p.order;
    MarkPaidValid(db, pk, c.now);
    CollectHere(db, MarkPaid(db, pk, c.now), pk, o);
    EvidenceBounds(db, o);
    EvidenceBounds(Settle(db, pk, c), o);
    PaidIsPositive(db, pk, c);
  }

  lemma PaidIsPositive(db: Db, pk: nat, c: Call)
    requires On(db, pk) && Accepts(db, pk, c) && c.word == PaidWord
    ensures db.payments[pk].amount > 0
  {
    hide FindExt, Strip, CapacityError;
  }

  /** Whatever refused words came before it, the deciding word leaves the same tables, header and all. */
  lemma LagDecides(a: Db, b: Db, pk: nat, c: Call)
    requires Valid(a) && On(a, pk) && HeaderLag(a, b, a.payments[pk].order) && Accepts(a, pk, c)
    requires CleanBranch(a.orders[a.payments[pk].order].branch)
    ensures On(b, pk) && Deliver(b, pk, c) == Decided(a, pk, c)
  {
    var o := a.payments[pk].order;
    LagIsRows(a, b, o);
    LagAccepts(a, b, pk, c);
    DeliverIsDecided(b, pk, c);
    SettleKeepsOrders(a, pk, c);
    SettleKeepsOrders(b, pk, c);
    if c.word == FailWord { FailingSettles(a, pk, c); } else { PayingSettles(a, pk, c); }
    hide Settle, Deliver, Accepts, PaymentEvidence, Recompute, CleanBranch, Valid;
    if b != a {
      LagDecidesHeader(a, b, o, Settle(a, pk, c), if c.word == FailWord then None else Some(c.now), if c.word == FailWord then 0 else c.now);
      assert Settle(b, pk, c) == Settle(a, pk, c).(orders := b.orders);
    }
  }

  lemma FailedDeliver(db: Db, pk: nat, c: Call)
    requires On(db, pk) && db.payments[pk].status == Failed && Recompute(db, db.payments[pk].order, None, 0) == db
    ensures Deliver(db, pk, c) == db
  {
    RecomputeClock(db, db.payments[pk].order, None, c.now, 0);
    hide PaymentEvidence, Recompute;
  }

  lemma {:induction false} FailedWhole(db: Db, pk: nat, cs: seq<Call>)
    requires On(db, pk) && db.payments[pk].status == Failed && Recompute(db, db.payments[pk].order, None, 0) == db
    ensures RunCalls(db, pk, cs) == db
    decreases |cs|
  {
    hide Deliver, Recompute;
    if cs != [] {
      FailedDeliver(db, pk, cs[0]);
      FailedWhole(db, pk, cs[1..]);
    }
  }

  /** The tables that a decided history ends with. */
  function Outcome(db: Db, pk: nat, c: Call, refundedAt: Option<int>): Db
    requires On(db, pk) && Accepts(db, pk, c)
  {
    DeliverIsDecided(db, pk, c);
    if c.word == FailWord then Decided(db, pk, c) else WithRefund(Decided(db, pk, c), pk, refundedAt)
  }

  lemma DecidedWhole(db: Db, lag: Db, pk: nat, cs: seq<Call>)
    requires Valid(db) && On(db, pk) && CleanBranch(db.orders[db.payments[pk].order].branch)
    requires HeaderLag(db, lag, db.payments[pk].order) && On(lag, pk) && cs != [] && Accepts(db, pk, cs[0])
    ensures RunCalls(lag, pk, cs) == Outcome(db, pk, cs[0], FirstRefund(cs[1..]))
  {
    hide Accepts, Decided, HeaderLag, CleanBranch, Valid, PaidUp, Recorded, Settle, FirstRefund, WithRefund;
    var c := cs[0];
    LagDecides(db, lag, pk, c);
    DeliverIsDecided(db, pk, c);
    DeliverSettles(db, pk, c);
    var done := Deliver(db, pk, c);
    DoneIsWhole(db, pk, c);
    hide Deliver;
    if c.word == FailWord {
      FailedWhole(done, pk, cs[1..]);
    } else {
      PaidRun(done, pk, cs[1..]);
    }
  }

  /** After the deciding word the header is what the evidence implies. */
  lemma DoneIsWhole(db: Db, pk: nat, c: Call)
    requires On(db, pk) && Accepts(db, pk, c)
    ensures var done := Deliver(db, pk, c);
      && (c.word == FailWord ==> done.payments[pk].status == Failed && Recompute(done, done.payments[pk].order, None, 0) == done)
      && (c.word == PaidWord ==> PaidUp(done, pk))
      && (c.word == FailWord || c.word == PaidWord)
  {
    DeliverSettles(db, pk, c);
    if c.word == FailWord {
      var o := db.payments[pk].order;
      var failed := Settle(db, pk, c);
      RecomputeFrame(failed, o, None, c.now);
      RecomputeTwice(failed, o, None, c.now, None, 0);
    }
    hide PaymentEvidence, Recompute, EnsureRow, CapacityError;
  }

  lemma {:induction false} PendingWhole(db: Db, lag: Db, pk: nat, cs: seq<Call>)
    requires Valid(db) && On(db, pk) && db.payments[pk].status == Pending
    requires CleanBranch(db.orders[db.payments[pk].order].branch)
    requires HeaderLag(db, lag, db.payments[pk].order) && On(lag, pk) && FirstAccepted(db, pk, cs).Some?
    ensures var i := FirstAccepted(db, pk, cs).value;
      RunCalls(lag, pk, cs) == Outcome(db, pk, cs[i], FirstRefund(cs[i + 1..]))
    decreases |cs|
  {
    hide Deliver, Accepts, HeaderLag, CleanBranch, Valid, Outcome, FirstRefund;
    var c := cs[0];
    if Accepts(db, pk, c) {
      DecidedWhole(db, lag, pk, cs);
    } else {
      var o := db.payments[pk].order;
      LagIsRows(db, lag, o);
      LagAccepts(db, lag, pk, c);
      RefusedChangesNoRow(lag, pk, c);
      LagIsTransitive(db, lag, o, c.now);
      PendingWhole(db, Deliver(lag, pk, c), pk, cs[1..]);
      var i := FirstAccepted(db, pk, cs[1..]).value;
      assert cs[1..][i] == cs[i + 1] && cs[1..][i + 1..] == cs[i + 1 + 1..];
    }
  }

  /** Once a history of a pending payment is decided, on a branch that evidence can be compared by, the
      decision fixes the whole tables, the order's header included: refused words before it and repeated
      words after it leave no trace there either. */
  lemma DecisionFixesAll(db: Db, pk: nat, cs: seq<Call>, ds: seq<Call>)
    requires Valid(db) && On(db, pk) && db.payments[pk].status == Pending
    requires CleanBranch(db.orders[db.payments[pk].order].branch)
    requires Decide(db, pk, cs) == Decide(db, pk, ds) != Undecided
    ensures RunCalls(db, pk, cs) == RunCalls(db, pk, ds)
  {
    hide RunCalls, Accepts, FirstAccepted, FirstRefund, CleanBranch, Valid, Settle;
    PendingWhole(db, db, pk, cs);
    PendingWhole(db, db, pk, ds);
    var c, d := cs[FirstAccepted(db, pk, cs).value], ds[FirstAccepted(db, pk, ds).value];
    AcceptedWords(db, pk, c);
    AcceptedWords(db, pk, d);
    SameWordSettles(db, pk, c, d);
  }

  lemma AcceptedWords(db: Db, pk: nat, c: Call)
    requires On(db, pk) && Accepts(db, pk, c)
    ensures c.word == FailWord || c.word == PaidWord
  {
  }

  lemma SameWordSettles(db: Db, pk: nat, c: Call, d: Call)
    requires On(db, pk) && Accepts(db, pk, c) && Accepts(db, pk, d)
    requires c.word == d.word && (c.word == FailWord || c.now == d.now)
    ensures Settle(db, pk, c) == Settle(db, pk, d)
  {
    hide EnsureRow, CapacityError;
  }

  lemma {:induction false} FirstRefundOfTwice(cs: seq<Call>, c: Call)
    ensures FirstRefund(cs + [c, c]) == FirstRefund(cs + [c])
  {
    if cs == [] {
      assert [c, c][1..] == [c] && cs + [c, c] == [c, c] && cs + [c] == [c];
    } else {
      assert (cs + [c, c])[1..] == cs[1..] + [c, c] && (cs + [c])[1..] == cs[1..] + [c];
      FirstRefundOfTwice(cs[1..], c);
    }
  }

  lemma {:induction false} FirstAcceptedOfTwice(db: Db, pk: nat, cs: seq<Call>, c: Call)
    requires On(db, pk)
    ensures FirstAccepted(db, pk, cs + [c, c]) == FirstAccepted(db, pk, cs + [c])
  {
    hide Accepts;
    if cs == [] {
      assert cs + [c, c] == [c, c] && cs + [c] == [c] && [c, c][1..] == [c] && [c][1..] == [];
    } else {
      assert (cs + [c, c])[1..] == cs[1..] + [c, c] && (cs + [c])[1..] == cs[1..] + [c];
      FirstAcceptedOfTwice(db, pk, cs[1..], c);
    }
  }

  lemma PendingTwice(db: Db, pk: nat, cs: seq<Call>, c: Call)
    requires On(db, pk) && db.payments[pk].status == Pending
    ensures Decide(db, pk, cs + [c, c]) == Decide(db, pk, cs + [c])
  {
    hide Accepts, FirstAccepted;
    var once, twice := cs + [c], cs + [c, c];
    FirstAcceptedOfTwice(db, pk, cs, c);
    var first := FirstAccepted(db, pk, once);
    if first.Some? {
      var i := first.value;
      if i < |cs| {
        assert once[i + 1..] == cs[i + 1..] + [c] && twice[i + 1..] == cs[i + 1..] + [c, c];
        FirstRefundOfTwice(cs[i + 1..], c);
      } else {
        assert once[i + 1..] == [] && twice[i + 1..] == [c];
        AcceptedIsNoRefund(db, pk, c);
        assert [c][1..] == [];
        assert FirstRefund([c]) == FirstRefund([]) == None;
      }
    }
  }

  /** Delivering a callback again adds nothing, at any point of any history, from any status. */
  lemma RepeatAddsNothing(db: Db, pk: nat, cs: seq<Call>, c: Call)
    requires On(db, pk)
    ensures SameRows(RunCalls(db, pk, cs + [c, c]), RunCalls(db, pk, cs + [c]))
  {
    var once, twice := cs + [c], cs + [c, c];
    if db.payments[pk].status == Pending {
      PendingTwice(db, pk, cs, c);
    } else {
      FirstRefundOfTwice(cs, c);
      assert forall x :: x in once <==> x in twice;
    }
    hide RunCalls;
    OnlyTheDecisionMatters(db, pk, twice, once);
  }

  lemma AcceptedIsNoRefund(db: Db, pk: nat, c: Call)
    requires On(db, pk) && Accepts(db, pk, c)
    ensures c.word != RefundWord
  {
  }
}
