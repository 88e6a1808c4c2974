/** The courier money ledger as the service keeps it: tables that transactions update in place. */
module CourierLedger {
  import opened Common
  import opened Text
  import opened PaymentRows
  import opened PaymentFold
  import M = PaymentMeaning
  import opened PaymentTransactions

  lemma {:induction false} TillFaultStays(rows: seq<Till>, o: nat, branch: Text, i: nat)
    requires i <= |rows| && FirstTillFault(rows[..i], o, branch).Some?
    ensures FirstTillFault(rows, o, branch) == FirstTillFault(rows[..i], o, branch)
    decreases |rows|
  {
    if i < |rows| {
      assert rows[..|rows| - 1][..i] == rows[..i];
      TillFaultStays(rows[..|rows| - 1], o, branch, i);
    } else {
      assert rows[..i] == rows;
    }
  }

  lemma {:induction false} ExtFaultStays(rows: seq<Ext>, o: nat, branch: Text, i: nat)
    requires i <= |rows| && FirstExtFault(rows[..i], o, branch).Some?
    ensures FirstExtFault(rows, o, branch) == FirstExtFault(rows[..i], o, branch)
    decreases |rows|
  {
    if i < |rows| {
      assert rows[..|rows| - 1][..i] == rows[..i];
      ExtFaultStays(rows[..|rows| - 1], o, branch, i);
    } else {
      assert rows[..i] == rows;
    }
  }

  lemma {:induction false} LegacyFaultStays(ps: seq<Payment>, o: nat, mirrored: set<Text>, branch: Text, i: nat)
    requires i <= |ps| && FirstLegacyFault(ps[..i], o, mirrored, branch).Some?
    ensures FirstLegacyFault(ps, o, mirrored, branch) == FirstLegacyFault(ps[..i], o, mirrored, branch)
    decreases |ps|
  {
    if i < |ps| {
      assert ps[..|ps| - 1][..i] == ps[..i];
      LegacyFaultStays(ps[..|ps| - 1], o, mirrored, branch, i);
    } else {
      assert ps[..i] == ps;
    }
  }

  /** Walk the till rows of an order, stopping at the first unreadable one. */
  method FoldTills(rows: seq<Till>, o: nat, branch: Text) returns (fault: Option<Unreadable>, tally: Tally)
    ensures fault == FirstTillFault(rows, o, branch)
    ensures fault.None? ==> tally == TillTally(rows, o)
  {
    hide TillTally, FirstTillFault;
    NoRows(o, branch, {});
    assert rows[..0] == [];
    var noncash, cashTendered, tenders, latest, any := 0, 0, {}, None, false;
    for i := 0 to |rows|
      invariant FirstTillFault(rows[..i], o, branch).None?
      invariant TillTally(rows[..i], o) == Tally(noncash, cashTendered, tenders, latest, any)
    {
      var row := rows[i];
      assert rows[..i + 1] == rows[..i] + [row];
      TillAppend(rows[..i], row, o, branch);
      if row.order == o && !row.deleted {
        any := true;
        fault := if row.branch != branch then Some(TillOtherBranch)
                 else if !Concrete(row.tender) then Some(TillBadTender)
                 else if row.amount < 0 then Some(TillNegative)
                 else None;
        if fault.Some? {
          TillFaultStays(rows, o, branch, i + 1);
          tally := NoRowsTally();
          return;
        }
        if row.amount != 0 {
          latest := Later(latest, Some(row.at));
          if row.tender == CASH {
            cashTendered := cashTendered + row.amount;
          } else {
            noncash := noncash + row.amount;
            tenders := tenders + {row.tender};
          }
        }
      }
    }
    assert rows[..|rows|] == rows;
    fault, tally := None, Tally(noncash, cashTendered, tenders, latest, any);
  }

  /** Walk the synced external rows, remembering the keys they represent. */
  method FoldExts(rows: seq<Ext>, o: nat, branch: Text)
    returns (fault: Option<Unreadable>, tally: Tally, mirrored: set<Text>)
    ensures fault == FirstExtFault(rows, o, branch)
    ensures fault.None? ==> tally == ExtTally(rows, o) && mirrored == Mirrored(rows, o)
  {
    hide ExtTally, FirstExtFault, Mirrored;
    NoRows(o, branch, {});
    assert rows[..0] == [];
    var exact, tenders, latest, any := 0, {}, None, false;
    mirrored := {};
    for i := 0 to |rows|
      invariant FirstExtFault(rows[..i], o, branch).None?
      invariant ExtTally(rows[..i], o) == Tally(exact, 0, tenders, latest, any)
      invariant mirrored == Mirrored(rows[..i], o)
    {
      var row := rows[i];
      assert rows[..i + 1] == rows[..i] + [row];
      ExtAppend(rows[..i], row, o, branch);
      if row.order == o && row.ofCourier && !row.deleted {
        fault := if row.branch != branch then Some(ExtOtherBranch)
                 else if !Concrete(row.tender) then Some(ExtBadTender)
                 else if row.amount <= 0 then Some(ExtNonPositive)
                 else None;
        if fault.Some? {
          ExtFaultStays(rows, o, branch, i + 1);
          tally := NoRowsTally();
          return;
        }
        exact := exact + row.amount;
        tenders := tenders + {row.tender};
        latest := Later(latest, Some(row.at));
        mirrored := mirrored + {row.sourceId};
        any := true;
      }
    }
    assert rows[..|rows|] == rows;
    fault, tally := None, Tally(exact, 0, tenders, latest, any);
  }

  /** Walk the collected courier rows no synced row represents. */
  method FoldLegacy(ps: seq<Payment>, o: nat, mirrored: set<Text>, branch: Text)
    returns (fault: Option<Unreadable>, tally: Tally)
    ensures fault == FirstLegacyFault(ps, o, mirrored, branch)
    ensures fault.None? ==> tally == LegacyTally(ps, o, mirrored)
  {
    hide LegacyTally, FirstLegacyFault;
    NoRows(o, branch, mirrored);
    assert ps[..0] == [];
    var exact, tenders, latest, any := 0, {}, None, false;
    for i := 0 to |ps|
      invariant FirstLegacyFault(ps[..i], o, mirrored, branch).None?
      invariant LegacyTally(ps[..i], o, mirrored) == Tally(exact, 0, tenders, latest, any)
    {
      var row := ps[i];
      assert ps[..i + 1] == ps[..i] + [row];
      LegacyAppend(ps[..i], row, o, mirrored, branch);
      if row.order == o && row.Collected() && row.key !in mirrored {
        var tender := TenderOf(row.provider);
        fault := if row.branch != branch then Some(CourierOtherBranch)
                 else if !Concrete(tender) then Some(CourierBadProvider)
                 else if row.amount <= 0 then Some(CourierNonPositive)
                 else None;
        if fault.Some? {
          LegacyFaultStays(ps, o, mirrored, branch, i + 1);
          tally := NoRowsTally();
          return;
        }
        exact := exact + row.amount;
        tenders := tenders + {tender};
        latest := Later(latest, Some(row.At()));
        any := true;
      }
    }
    assert ps[..|ps|] == ps;
    fault, tally := None, Tally(exact, 0, tenders, latest, any);
  }

  class CourierLedger {
    const hash: Text -> Text
    var orders: map<nat, Order>
    var tills: seq<Till>
    var exts: seq<Ext>
    var payments: seq<Payment>
    var refunds: seq<Reversal>

    /** The committed tables. */
    ghost function Tables(): Db
      reads this
    {
      Db(orders, tills, exts, payments, refunds)
    }

    constructor (hash: Text -> Text, db: Db)
      ensures Tables() == db && this.hash == hash
    {
      this.hash := hash;
      orders, tills, exts, payments, refunds := db.orders, db.tills, db.exts, db.payments, db.refunds;
    }

    method ReadEvidence(o: nat) returns (r: Result<Evidence, Unreadable>)
      requires o in orders
      ensures r == PaymentEvidence(Tables(), o)
      ensures r.Ok? ==> r.value.total == Min(orders[o].total, M.ExactMoney(Tables(), o) + M.CashTendered(tills, o))
    {
      if PaymentEvidence(Tables(), o).Ok? { M.EvidenceIs(Tables(), o); }
      hide M.ExactMoney, M.CashTendered;
      hide TillTally, ExtTally, LegacyTally, FirstTillFault, FirstExtFault, FirstLegacyFault, Mirrored;
      var due, branch := orders[o].total, orders[o].branch;
      var fault, till := FoldTills(tills, o, branch);
      if fault.Some? { return Err(fault.value); }
      if till.exact > due { return Err(NonCashOverTotal); }
      var extFault, ext, mirrored := FoldExts(exts, o, branch);
      if extFault.Some? { return Err(extFault.value); }
      var legacyFault, legacy := FoldLegacy(payments, o, mirrored, branch);
      if legacyFault.Some? { return Err(legacyFault.value); }
      var exact := till.exact + (ext.exact + legacy.exact);
      if exact > due { return Err(ExactOverTotal); }
      var cashApplied := Min(till.cash, Max(due - exact, 0));
      var tenders := till.tenders + (ext.tenders + legacy.tenders);
      if cashApplied > 0 {
        tenders := tenders + {CASH};
      }
      var latest := Later(till.latest, Later(ext.latest, legacy.latest));
      ghost var got := ext.Plus(legacy);
      assert tenders == till.tenders + got.tenders + (if cashApplied > 0 then {CASH} else {});
      return Ok(Evidence(due, exact + cashApplied, tenders, latest, till.any || (ext.any || legacy.any)));
    }

    method CheckCapacity(o: nat, amount: int) returns (full: Option<Reason>)
      requires o in orders
      ensures full == CapacityError(Tables(), o, amount)
    {
      var r := ReadEvidence(o);
      if r.Err? { return Some(Unread(r.error)); }
      var e := r.value;
      if e.due <= 0 { return Some(NothingDue); }
      if orders[o].isPaid && !e.hasRows { return Some(AlreadyPaid); }
      if amount > e.due - e.total { return Some(OverCapacity); }
      return None;
    }

    method RecomputeOrderPaid(o: nat, accounted: Option<int>, now: int)
      requires o in orders
      modifies this`orders
      ensures Tables() == Recompute(old(Tables()), o, accounted, now)
    {
      var r := ReadEvidence(o);
      if r.Err? { return; }
      var e, order := r.value, orders[o];
      if e.total > 0 && e.total >= e.due {
        if !order.isPaid {
          order := order.(isPaid := true);
          if order.accountedAt.None? {
            order := order.(accountedAt := accounted);
          }
        }
        order := order.(tender := Some(TheOnly(e.tenders)));
        order := order.(paidAt := Some(e.paidAt.GetOr(now)));
      } else if !order.isPaid {
        order := order.(tender := None, paidAt := None);
      }
      orders := orders[o := order];
    }

    method EnsureExternalEvidence(pk: nat, o: nat) returns (clash: Option<Clash>)
      requires pk < |payments| && o in orders
      modifies this`exts
      ensures match EnsureEvidence(old(Tables()), pk, o)
        case Err(c) => clash == Some(c) && Tables() == old(Tables())
        case Ok(db) => clash == None && Tables() == db
    {
      hide EvidenceClash, FindExt, Strip;
      var p, branch := payments[pk], orders[o].branch;
      clash := EvidenceClash(p, o, branch);
      if clash.Some? { return; }
      var mirror := MirrorOf(p, o, branch);
      var found := FindExt(exts, mirror.branch, mirror.sourceId);
      if found.None? {
        exts := exts + [mirror];
      } else if exts[found.value] != mirror {
        clash := Some(Changed);
      }
    }

    /** The tail of every collecting transaction; a conflict rolls the payment table back. */
    method ConfirmOrRollBack(saved: seq<Payment>, pk: nat, o: nat, accounted: Option<int>, now: int, emits: bool)
      returns (reply: Reply)
      requires pk < |payments| && o in orders
      modifies this`exts, this`orders, this`payments
      ensures Step(Tables(), reply)
           == Confirm(old(Tables()).(payments := saved), old(Tables()), pk, o, accounted, now, emits)
    {
      var clash := EnsureExternalEvidence(pk, o);
      if clash.Some? {
        payments := saved;
        return Rejected(Conflict(clash.value));
      }
      var shown := if emits then Paid
                   else if ExistingRefund(refunds, payments[pk].key) then Refunded else payments[pk].status;
      RecomputeOrderPaid(o, accounted, now);
      return Accepted(pk, shown, emits);
    }

    method ReplayPayment(pk: nat, o: nat, courier: Option<nat>, provider: Provider, amount: int, now: int)
      returns (reply: Reply)
      requires pk < |payments| && o in orders
      modifies this`exts, this`orders, this`payments
      ensures Step(Tables(), reply) == Replay(old(Tables()), pk, o, courier, provider, amount, now)
    {
      hide EnsureEvidence, PaymentEvidence, Header;
      var p := payments[pk];
      var identity := IdentityError(p, o, courier, provider, amount);
      if identity.Some? { return Rejected(identity.value); }
      match p.status
      case Paid => reply := ConfirmOrRollBack(payments, pk, o, Some(now), now, false);
      case Refunded => reply := ConfirmOrRollBack(payments, pk, o, Some(now), now, false);
      case Failed =>
        RecomputeOrderPaid(o, Some(now), now);
        reply := Rejected(FailedKey);
      case OtherStatus =>
        RecomputeOrderPaid(o, Some(now), now);
        reply := Rejected(BadStatus);
      case Pending =>
        var full := CheckCapacity(o, amount);
        if full.Some? { return Rejected(full.value); }
        var saved := payments;
        payments := payments[pk := p.(status := Paid, paidAt := Some(now))];
        reply := ConfirmOrRollBack(saved, pk, o, Some(now), now, true);
    }

    /** Find the collection by its key or record it, and derive the header; a refusal rolls back. */
    method CreatePayment(req: Request, now: int) returns (reply: Reply)
      modifies this`exts, this`orders, this`payments
      ensures Step(Tables(), reply) == Create(old(Tables()), hash, req, now)
    {
      hide Confirm, PaymentEvidence, Replay;
      var refusal := Refusal(orders, req);
      if refusal.Some? { return Rejected(refusal.value); }
      var o, order := req.order, orders[req.order];
      var amount, key := AmountOf(order, req.amount), KeyOf(order, hash, req);
      var found := FindKey(payments, key);
      if found.Some? {
        reply := ReplayPayment(found.value, o, req.courier, req.provider, amount, now);
        return;
      }
      var full := CheckCapacity(o, amount);
      if full.Some? { return Rejected(full.value); }
      var saved := payments;
      payments := payments + [Payment(o, req.courier, req.provider, amount, Paid, key, order.branch, now, Some(now))];
      reply := ConfirmOrRollBack(saved, |saved|, o, Some(now), now, true);
    }

    /** Take a collection back: one refund row, and neither the payment nor the header moves. */
    method Refund(pk: nat, coreAccepts: bool, now: int) returns (reply: Reply)
      requires pk < |payments| && payments[pk].order in orders
      modifies this`exts, this`orders, this`refunds
      ensures Step(Tables(), reply) == RefundPayment(old(Tables()), pk, coreAccepts, now)
    {
      hide EnsureEvidence, PaymentEvidence, Header;
      var p := payments[pk];
      var o := p.order;
      if !p.Collected() {
        RecomputeOrderPaid(o, None, now);
        return Rejected(NotRefundable);
      }
      if orders[o].branch == [] { return Rejected(NoBranch); }
      var clash := EnsureExternalEvidence(pk, o);
      if clash.Some? { return Rejected(Conflict(clash.value)); }
      var known := ExistingRefund(refunds, p.key);
      if p.status == Refunded {
        return if known then Accepted(pk, Refunded, false) else Rejected(NoRefundEvent);
      }
      if !known {
        if !coreAccepts { return Rejected(CoreRefused); }
        refunds := refunds + [ProviderReversal(p, now)];
      }
      return Accepted(pk, Refunded, !known);
    }

    method ConfirmPaid(pk: nat, now: int) returns (reply: Reply)
      requires pk < |payments| && payments[pk].order in orders
      modifies this`exts, this`orders, this`payments
      ensures Step(Tables(), reply) == PaidCallback(old(Tables()), pk, now)
    {
      hide EnsureEvidence, PaymentEvidence, Header;
      var p := payments[pk];
      var o := p.order;
      match p.status
      case Paid =>
        if orders[o].branch == [] { return Rejected(NoBranch); }
        reply := ConfirmOrRollBack(payments, pk, o, None, now, false);
      case Refunded =>
        if orders[o].branch == [] { return Rejected(NoBranch); }
        var clash := EnsureExternalEvidence(pk, o);
        if clash.Some? { return Rejected(Conflict(clash.value)); }
        RecomputeOrderPaid(o, None, now);
        reply := Accepted(pk, Refunded, false);
      case Failed =>
        RecomputeOrderPaid(o, None, now);
        reply := Accepted(pk, Failed, false);
      case OtherStatus =>
        RecomputeOrderPaid(o, None, now);
        reply := Rejected(BadStatus);
      case Pending =>
        var full := CheckCapacity(o, p.amount);
        if full.Some? { return Rejected(full.value); }
        if orders[o].branch == [] { return Rejected(NoBranch); }
        var saved := payments;
        payments := payments[pk := p.(status := Paid, paidAt := Some(now))];
        reply := ConfirmOrRollBack(saved, pk, o, Some(now), now, true);
    }

    method ConfirmFailed(pk: nat, now: int) returns (reply: Reply)
      requires pk < |payments| && payments[pk].order in orders
      modifies this`orders, this`payments
      ensures Step(Tables(), reply) == FailCallback(old(Tables()), pk, now)
    {
      hide PaymentEvidence, Header;
      var p := payments[pk];
      if p.status == Pending {
        payments := payments[pk := p.(status := Failed)];
      }
      RecomputeOrderPaid(p.order, None, now);
      return Accepted(pk, payments[pk].status, false);
    }

    /** A callback of the payment gateway, about a known payment or one it brings. */
    method ApplyWebhook(cb: Callback, now: int) returns (reply: Reply)
      requires Valid(Tables())
      modifies this
      ensures Step(Tables(), reply) == Webhook(old(Tables()), hash, cb, now)
    {
      hide Create, PaidCallback, FailCallback, RefundPayment, CleanKey;
      var pk: Option<nat> := None;
      if cb.paymentId.Some? {
        if cb.paymentId.value < |payments| { pk := cb.paymentId; }
      } else if CleanKey(cb.key) != [] {
        pk := FindKey(payments, CleanKey(cb.key));
      }
      match cb.word
      case PaidWord =>
        if pk.Some? {
          reply := ConfirmPaid(pk.value, now);
        } else if cb.order.None? {
          reply := Rejected(UnknownPayment);
        } else if cb.order.value !in orders {
          reply := Rejected(NoOrder);
        } else {
          var o := cb.order.value;
          reply := CreatePayment(Request(orders[o].rider, o, cb.provider, cb.amount, CleanKey(cb.key)), now);
        }
      case RefundWord =>
        if pk.None? {
          reply := Rejected(UnknownPayment);
        } else {
          reply := Refund(pk.value, cb.coreAccepts, now);
        }
      case FailWord =>
        if pk.Some? {
          reply := ConfirmFailed(pk.value, now);
        } else {
          reply := Nothing;
        }
      case OtherWord => reply := Rejected(UnsupportedStatus);
    }
  }
}
