/** What the evidence of an order says in terms of its rows alone, and what follows for the header and
    for the room that is left. */
module PaymentMeaning {
  import opened Common
  import opened Text
  import opened PaymentRows
  import opened PaymentFold
  import opened PaymentTransactions

  // ----- the money, row by row --------------------------------------------------------------

  /** Cash handed over at the till for the order, change included. */
  function CashTendered(rows: seq<Till>, o: nat): int {
    if rows == [] then 0
    else
      var r := rows[|rows| - 1];
      CashTendered(rows[..|rows| - 1], o) + if r.order == o && !r.deleted && r.tender == CASH then r.amount else 0
  }

  /** Till money that did not go through the drawer. */
  function NonCash(rows: seq<Till>, o: nat): int {
    if rows == [] then 0
    else
      var r := rows[|rows| - 1];
      NonCash(rows[..|rows| - 1], o) + if r.order == o && !r.deleted && r.tender != CASH then r.amount else 0
  }

  predicate IsSynced(r: Ext, o: nat) {
    r.order == o && r.ofCourier && !r.deleted
  }

  function Synced(rows: seq<Ext>, o: nat): int {
    if rows == [] then 0
    else Synced(rows[..|rows| - 1], o) + if IsSynced(rows[|rows| - 1], o) then rows[|rows| - 1].amount else 0
  }

  /** A courier collection of the order that no synced row stands for. */
  predicate Unmirrored(p: Payment, o: nat, exts: seq<Ext>) {
    p.order == o && (p.status == Paid || p.status == Refunded) && !exists r :: r in exts && IsSynced(r, o) && r.sourceId == p.key
  }

  function UnmirroredMoney(ps: seq<Payment>, o: nat, exts: seq<Ext>): int {
    if ps == [] then 0
    else
      var p := ps[|ps| - 1];
      UnmirroredMoney(ps[..|ps| - 1], o, exts) + if Unmirrored(p, o, exts) then p.amount else 0
  }

  /** All money that reached the order outside the drawer. */
  function ExactMoney(db: Db, o: nat): int {
    NonCash(db.tills, o) + Synced(db.exts, o) + UnmirroredMoney(db.payments, o, db.exts)
  }

  lemma {:induction false} TillMoney(rows: seq<Till>, o: nat)
    ensures TillTally(rows, o).cash == CashTendered(rows, o) && TillTally(rows, o).exact == NonCash(rows, o)
  {
    if rows != [] { TillMoney(rows[..|rows| - 1], o); }
  }

  lemma {:induction false} ExtMoney(rows: seq<Ext>, o: nat)
    ensures ExtTally(rows, o).cash == 0 && ExtTally(rows, o).exact == Synced(rows, o)
  {
    if rows != [] { ExtMoney(rows[..|rows| - 1], o); }
  }

  lemma {:induction false} LegacyMoney(ps: seq<Payment>, o: nat, exts: seq<Ext>)
    ensures var t := LegacyTally(ps, o, Mirrored(exts, o));
      t.cash == 0 && t.exact == UnmirroredMoney(ps, o, exts)
  {
    if ps != [] {
      LegacyMoney(ps[..|ps| - 1], o, exts);
      LegacyIsUnmirrored(ps[|ps| - 1], o, exts);
    }
  }

  lemma LegacyIsUnmirrored(p: Payment, o: nat, exts: seq<Ext>)
    ensures OfLegacy(p, o, Mirrored(exts, o)) <==> Unmirrored(p, o, exts)
  {
  }

  /** The money outside the drawer, and the till cash, are these sums. */
  lemma MoneyIs(db: Db, o: nat)
    ensures NonDrawer(db, o) == ExactMoney(db, o)
    ensures TillTally(db.tills, o).cash == CashTendered(db.tills, o) && Collections(db, o).cash == 0
  {
    hide TillTally, ExtTally, LegacyTally, Mirrored, CashTendered, NonCash, Synced, UnmirroredMoney;
    TillMoney(db.tills, o);
    ExtMoney(db.exts, o);
    LegacyMoney(db.payments, o, db.exts);
  }

  // ----- tenders and stamps -----------------------------------------------------------------

  /** A live till row of the order that holds money. */
  predicate TillCounts(r: Till, o: nat) {
    r.order == o && !r.deleted && r.amount != 0
  }

  predicate PaidBy(p: Payment, m: Tender) {
    (p.provider == ByCash && m == CASH) || (p.provider == ByCard && m == UZCARD) || (p.provider == ByQr && m == PAYME)
  }

  /** A counted row of the order carries this tender; till cash only counts as far as it is applied. */
  predicate Carried(db: Db, o: nat, m: Tender) {
    || (exists r :: r in db.tills && TillCounts(r, o) && r.tender == m && m != CASH)
    || (exists r :: r in db.exts && IsSynced(r, o) && r.tender == m)
    || (exists p :: p in db.payments && Unmirrored(p, o, db.exts) && PaidBy(p, m))
  }

  function StampOf(p: Payment): int {
    if p.paidAt.Some? then p.paidAt.value else p.createdAt
  }

  /** The stamps of the counted rows of the order. */
  function Stamps(db: Db, o: nat): set<int> {
    TillStamps(db.tills, o) + ExtStamps(db.exts, o) + LegacyStamps(db.payments, o, db.exts)
  }

  ghost predicate HasRow(db: Db, o: nat) {
    || (exists r :: r in db.tills && r.order == o && !r.deleted)
    || (exists r :: r in db.exts && IsSynced(r, o))
    || (exists p :: p in db.payments && Unmirrored(p, o, db.exts))
  }

  // ----- what the tallies collect -----------------------------------------------------------

  function TillStamps(rows: seq<Till>, o: nat): set<int> {
    set r | r in rows && TillCounts(r, o) :: r.at
  }

  function ExtStamps(rows: seq<Ext>, o: nat): set<int> {
    set r | r in rows && IsSynced(r, o) :: r.at
  }

  function LegacyStamps(ps: seq<Payment>, o: nat, exts: seq<Ext>): set<int> {
    set p | p in ps && Unmirrored(p, o, exts) :: StampOf(p)
  }

  /** The latest of the stamps, if there are any. */
  predicate IsLatest(latest: Option<int>, stamps: set<int>) {
    if latest.None? then stamps == {} else latest.value in stamps && forall t | t in stamps :: t <= latest.value
  }

  lemma NoneIsLatest(stamps: set<int>)
    requires stamps == {}
    ensures IsLatest(None, stamps)
  {
  }

  lemma LaterIsLatest(latest: Option<int>, stamps: set<int>, at: int)
    requires IsLatest(latest, stamps)
    ensures IsLatest(Later(latest, Some(at)), stamps + {at}) && IsLatest(Later(latest, None), stamps)
  {
  }

  lemma TillStampsSplit(rows: seq<Till>, o: nat)
    requires rows != []
    ensures var r, rest := rows[|rows| - 1], TillStamps(rows[..|rows| - 1], o);
      TillStamps(rows, o) == if TillCounts(r, o) then rest + {r.at} else rest
  {
    assert rows == rows[..|rows| - 1] + [rows[|rows| - 1]];
  }

  lemma {:induction false} TillLatest(rows: seq<Till>, o: nat)
    ensures IsLatest(TillTally(rows, o).latest, TillStamps(rows, o))
  {
    hide IsLatest;
    if rows == [] {
      NoneIsLatest(TillStamps(rows, o));
    } else {
      var n := |rows| - 1;
      TillLatest(rows[..n], o);
      TillStampsSplit(rows, o);
      hide TillStamps;
      LaterIsLatest(TillTally(rows[..n], o).latest, TillStamps(rows[..n], o), rows[n].at);
    }
  }

  lemma {:induction false} TillTender(rows: seq<Till>, o: nat, m: Tender)
    ensures m in TillTally(rows, o).tenders <==> exists r :: r in rows && TillCounts(r, o) && r.tender == m != CASH
  {
    if rows != [] {
      var n := |rows| - 1;
      TillTender(rows[..n], o, m);
      assert rows == rows[..n] + [rows[n]];
    }
  }

  lemma {:induction false} TillAny(rows: seq<Till>, o: nat)
    ensures TillTally(rows, o).any <==> exists r :: r in rows && r.order == o && !r.deleted
  {
    if rows != [] {
      var n := |rows| - 1;
      TillAny(rows[..n], o);
      assert rows == rows[..n] + [rows[n]];
    }
  }

  lemma ExtStampsSplit(rows: seq<Ext>, o: nat)
    requires rows != []
    ensures var r, rest := rows[|rows| - 1], ExtStamps(rows[..|rows| - 1], o);
      ExtStamps(rows, o) == if IsSynced(r, o) then rest + {r.at} else rest
  {
    assert rows == rows[..|rows| - 1] + [rows[|rows| - 1]];
  }

  lemma {:induction false} ExtLatest(rows: seq<Ext>, o: nat)
    ensures IsLatest(ExtTally(rows, o).latest, ExtStamps(rows, o))
  {
    hide IsLatest;
    if rows == [] {
      NoneIsLatest(ExtStamps(rows, o));
    } else {
      var n := |rows| - 1;
      ExtLatest(rows[..n], o);
      ExtStampsSplit(rows, o);
      hide ExtStamps;
      LaterIsLatest(ExtTally(rows[..n], o).latest, ExtStamps(rows[..n], o), rows[n].at);
    }
  }

  lemma {:induction false} ExtTender(rows: seq<Ext>, o: nat, m: Tender)
    ensures m in ExtTally(rows, o).tenders <==> exists r :: r in rows && IsSynced(r, o) && r.tender == m
  {
    if rows != [] {
      var n := |rows| - 1;
      ExtTender(rows[..n], o, m);
      assert rows == rows[..n] + [rows[n]];
    }
  }

  lemma {:induction false} ExtAny(rows: seq<Ext>, o: nat)
    ensures ExtTally(rows, o).any <==> exists r :: r in rows && IsSynced(r, o)
  {
    if rows != [] {
      var n := |rows| - 1;
      ExtAny(rows[..n], o);
      assert rows == rows[..n] + [rows[n]];
      if IsSynced(rows[n], o) { assert rows[n] in rows; }
      if r :| r in rows[..n] && IsSynced(r, o) { assert r in rows; }
    }
  }

  lemma LegacyStampsSplit(ps: seq<Payment>, o: nat, exts: seq<Ext>)
    requires ps != []
    ensures var p, rest := ps[|ps| - 1], LegacyStamps(ps[..|ps| - 1], o, exts);
      LegacyStamps(ps, o, exts) == if Unmirrored(p, o, exts) then rest + {StampOf(p)} else rest
  {
    hide Unmirrored;
    assert ps == ps[..|ps| - 1] + [ps[|ps| - 1]];
  }

  lemma {:induction false} LegacyLatest(ps: seq<Payment>, o: nat, exts: seq<Ext>)
    ensures IsLatest(LegacyTally(ps, o, Mirrored(exts, o)).latest, LegacyStamps(ps, o, exts))
  {
    hide IsLatest, Mirrored, OfLegacy, Unmirrored;
    if ps == [] {
      NoneIsLatest(LegacyStamps(ps, o, exts));
    } else {
      var n := |ps| - 1;
      LegacyLatest(ps[..n], o, exts);
      LegacyIsUnmirrored(ps[n], o, exts);
      LegacyStampsSplit(ps, o, exts);
      hide LegacyStamps;
      LaterIsLatest(LegacyTally(ps[..n], o, Mirrored(exts, o)).latest, LegacyStamps(ps[..n], o, exts), StampOf(ps[n]));
    }
  }

  lemma {:induction false} LegacyTender(ps: seq<Payment>, o: nat, exts: seq<Ext>, m: Tender)
    requires Concrete(m)
    ensures m in LegacyTally(ps, o, Mirrored(exts, o)).tenders <==> exists p :: p in ps && Unmirrored(p, o, exts) && PaidBy(p, m)
  {
    hide Mirrored, OfLegacy, Unmirrored;
    if ps != [] {
      var n := |ps| - 1;
      LegacyTender(ps[..n], o, exts, m);
      LegacyIsUnmirrored(ps[n], o, exts);
      assert ps == ps[..n] + [ps[n]];
    }
  }

  lemma {:induction false} LegacyAny(ps: seq<Payment>, o: nat, exts: seq<Ext>)
    ensures LegacyTally(ps, o, Mirrored(exts, o)).any <==> exists p :: p in ps && Unmirrored(p, o, exts)
  {
    hide Mirrored, OfLegacy, Unmirrored;
    if ps != [] {
      var n := |ps| - 1;
      LegacyAny(ps[..n], o, exts);
      LegacyIsUnmirrored(ps[n], o, exts);
      assert ps == ps[..n] + [ps[n]];
    }
  }

  // ----- the evidence -----------------------------------------------------------------------

  /** Readable exactly when every live till row, every synced row and every unmirrored collection of the
      order is of its branch, in a concrete tender and not negative - for the last two: positive - and
      the money outside the drawer fits the total. */
  lemma ReadableIff(db: Db, o: nat)
    requires o in db.orders
    ensures var branch := db.orders[o].branch;
      PaymentEvidence(db, o).Ok? <==>
        && (forall r | r in db.tills && r.order == o && !r.deleted ::
              r.branch == branch && r.tender != MIXED && r.tender != UNLISTED && r.amount >= 0)
        && (forall r | r in db.exts && IsSynced(r, o) ::
              r.branch == branch && r.tender != MIXED && r.tender != UNLISTED && r.amount > 0)
        && (forall p | p in db.payments && Unmirrored(p, o, db.exts) ::
              p.branch == branch && !p.provider.UnknownProvider? && p.amount > 0)
        && ExactMoney(db, o) <= db.orders[o].total
  {
    EvidenceReadable(db, o);
    MoneyIs(db, o);
    forall p ensures OfLegacy(p, o, Mirrored(db.exts, o)) <==> Unmirrored(p, o, db.exts) { LegacyIsUnmirrored(p, o, db.exts); }
    hide Mirrored, OfLegacy, Unmirrored, PaymentEvidence, NonDrawer, ExactMoney;
  }

  /** The parts of readable evidence: the money that bypassed the drawer counts exactly, till cash fills
      up to the amount due, and only then is cash a tender; the stamp is the latest of all. */
  lemma EvidenceIs(db: Db, o: nat)
    requires o in db.orders && PaymentEvidence(db, o).Ok?
    ensures var e, exact, cash := PaymentEvidence(db, o).value, ExactMoney(db, o), CashTendered(db.tills, o);
      && e.due == db.orders[o].total && e.total == Min(e.due, exact + cash)
      && (forall m | Concrete(m) :: m in e.tenders <==> Carried(db, o, m) || (m == CASH && cash > 0 && exact < e.due))
      && (forall m | m in e.tenders :: Concrete(m))
      && IsLatest(e.paidAt, Stamps(db, o))
      && (e.hasRows <==> HasRow(db, o))
  {
    hide TillTally, ExtTally, LegacyTally, Mirrored, FirstTillFault, FirstExtFault, FirstLegacyFault, Carried, Unmirrored;
    hide IsLatest, Stamps, ExactMoney, CashTendered;
    MoneyIs(db, o);
    EvidenceBounds(db, o);
    TillSound(db.tills, o, db.orders[o].branch);
    PartsOf(db, o);
    StampsOf(db, o);
    TillAny(db.tills, o);
    ExtAny(db.exts, o);
    LegacyAny(db.payments, o, db.exts);
  }

  lemma PartsOf(db: Db, o: nat)
    ensures forall m | Concrete(m) ::
      m in TillTally(db.tills, o).tenders + Collections(db, o).tenders <==> Carried(db, o, m)
  {
    forall m | Concrete(m)
      ensures m in TillTally(db.tills, o).tenders + Collections(db, o).tenders <==> Carried(db, o, m)
    {
      TillTender(db.tills, o, m);
      ExtTender(db.exts, o, m);
      LegacyTender(db.payments, o, db.exts, m);
      hide TillTally, ExtTally, LegacyTally, Unmirrored, Mirrored;
    }
  }

  lemma StampsOf(db: Db, o: nat)
    ensures IsLatest(Later(TillTally(db.tills, o).latest, Collections(db, o).latest), Stamps(db, o))
  {
    TillLatest(db.tills, o);
    ExtLatest(db.exts, o);
    LegacyLatest(db.payments, o, db.exts);
    hide TillTally, ExtTally, LegacyTally, TillStamps, ExtStamps, LegacyStamps, Mirrored;
  }

  // ----- the room that is left --------------------------------------------------------------

  /** A collection fits exactly when the evidence is readable, the order has something due, is not paid
      without a row to show for it, and the amount is within what money and till cash leave open. */
  lemma RoomIff(db: Db, o: nat, amount: int)
    requires o in db.orders
    ensures var due := db.orders[o].total;
      CapacityError(db, o, amount).None? <==>
        && PaymentEvidence(db, o).Ok? && due > 0 && (db.orders[o].isPaid ==> HasRow(db, o))
        && amount <= due - Min(due, ExactMoney(db, o) + CashTendered(db.tills, o))
  {
    if PaymentEvidence(db, o).Ok? { EvidenceIs(db, o); }
    hide PaymentEvidence, HasRow, ExactMoney, CashTendered, Stamps, IsLatest, Carried;
  }

  // ----- the paid header --------------------------------------------------------------------

  /** Money and till cash cover a positive total. */
  predicate Covered(db: Db, o: nat)
    requires o in db.orders
  {
    db.orders[o].total > 0 && ExactMoney(db, o) + CashTendered(db.tills, o) >= db.orders[o].total
  }

  /** A tender that contributes to the evidence. */
  ghost predicate Contributes(db: Db, o: nat, m: Tender)
    requires o in db.orders
  {
    Concrete(m) && (Carried(db, o, m) || (m == CASH && CashTendered(db.tills, o) > 0 && ExactMoney(db, o) < db.orders[o].total))
  }

  ghost predicate OnlyTender(db: Db, o: nat, m: Tender)
    requires o in db.orders
  {
    Contributes(db, o, m) && forall x | Contributes(db, o, x) :: x == m
  }

  lemma TheOnlyIs(s: set<Tender>, m: Tender)
    requires forall x | x in s :: Concrete(x)
    ensures TheOnly(s) == m && m != MIXED <==> s == {m} && m != MIXED
    ensures TheOnly(s) == MIXED || TheOnly(s) in s
  {
    if |s| == 1 {
      assert s == {TheOnly(s)} by { OnlyOne(s); }
    }
  }

  /** What deriving the header makes of a readable order. Covered: paid, from the latest stamp, in the one
      tender that contributes or mixed, and accounted at the given time if it was not paid and not
      accounted before. Not covered: a paid header stays, an unpaid one loses tender and time. Nothing
      else changes. */
  lemma HeaderIs(db: Db, o: nat, accounted: Option<int>, now: int)
    requires o in db.orders && PaymentEvidence(db, o).Ok?
    ensures var order, after := db.orders[o], Recompute(db, o, accounted, now);
      && o in after.orders && after == db.(orders := db.orders[o := after.orders[o]])
      && var h := after.orders[o];
         if Covered(db, o) then
           && h == order.(isPaid := true, tender := h.tender, paidAt := h.paidAt, accountedAt := h.accountedAt)
           && IsLatest(h.paidAt, Stamps(db, o)) && h.paidAt.Some?
           && h.tender.Some? && (h.tender.value == MIXED || OnlyTender(db, o, h.tender.value))
           && (forall m | OnlyTender(db, o, m) :: h.tender.value == m)
           && h.accountedAt == if !order.isPaid && order.accountedAt.None? then accounted else order.accountedAt
         else h == if order.isPaid then order else order.(tender := None, paidAt := None)
  {
    hide PaymentEvidence, HasRow, ExactMoney, CashTendered, Stamps, Carried, TheOnly, IsLatest, NonDrawer, Collections, TillTally;
    EvidenceIs(db, o);
    EvidenceBounds(db, o);
    var e := PaymentEvidence(db, o).value;
    TheOnlyIs(e.tenders, TheOnly(e.tenders));
    forall m ensures m in e.tenders <==> Contributes(db, o, m) { }
    forall m | OnlyTender(db, o, m) ensures TheOnly(e.tenders) == m {
      assert e.tenders == {m};
      TheOnlyIs(e.tenders, m);
    }
  }

  /** Till cash that covers a positive total makes a readable order paid and leaves no room. */
  lemma CashCovers(db: Db, o: nat, accounted: Option<int>, now: int, amount: int)
    requires o in db.orders && PaymentEvidence(db, o).Ok? && amount > 0
    requires db.orders[o].total > 0 && CashTendered(db.tills, o) >= db.orders[o].total
    ensures Recompute(db, o, accounted, now).orders[o].isPaid
    ensures db.orders[o].isPaid ==> HasRow(db, o)
    ensures CapacityError(db, o, amount) == Some(OverCapacity)
  {
    hide PaymentEvidence, HasRow, ExactMoney, CashTendered, Stamps, Carried, TheOnly, IsLatest, NonDrawer, Collections, TillTally;
    EvidenceIs(db, o);
    EvidenceBounds(db, o);
    MoneyIs(db, o);
  }
}
