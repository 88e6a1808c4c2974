/** Safety of every run on the courier ledger: the paid header and the collection bound. */
module PaymentSafety {
  import opened Common
  import opened Text
  import opened PaymentRows
  import opened PaymentFold
  import opened PaymentTransactions

  // ----- the paid header --------------------------------------------------------------------

  /** Re-deriving the header reads nothing it writes. */
  lemma RecomputeFrame(db: Db, o: nat, accounted: Option<int>, now: int)
    requires o in db.orders
    ensures var r := Recompute(db, o, accounted, now);
      && r == db.(orders := r.orders) && r.orders.Keys == db.orders.Keys
      && (forall x | x in db.orders && x != o :: r.orders[x] == db.orders[x])
      && r.orders[o] == db.orders[o].(isPaid := r.orders[o].isPaid, tender := r.orders[o].tender,
                                      paidAt := r.orders[o].paidAt, accountedAt := r.orders[o].accountedAt)
      && (forall x | x in db.orders :: PaymentEvidence(r, x) == PaymentEvidence(db, x))
  {
  }

  /** What one header derivation may do to an order whose evidence reads `e`. */
  ghost predicate HeaderFollows(before: Order, after: Order, e: Evidence, accounted: Option<int>) {
    && (before.isPaid ==> after.isPaid)
    && (before.accountedAt.Some? ==> after.accountedAt == before.accountedAt)
    && (after.accountedAt != before.accountedAt ==> !before.isPaid && after.isPaid && after.accountedAt == accounted)
    && (!before.isPaid && after.isPaid ==> e.total == before.total > 0)
    && (e.total == before.total > 0 ==>
          && after.isPaid
          && after.paidAt.Some? && after.paidAt == e.paidAt
          && after.tender.Some?
          && (forall t | e.tenders == {t} :: after.tender == Some(t))
          && (after.tender != Some(MIXED) <==> |e.tenders| == 1))
  }

  lemma HeaderRule(order: Order, e: Evidence, accounted: Option<int>, now: int)
    requires e.due == order.total && e.total <= e.due
    requires e.total > 0 ==> e.paidAt.Some?
    requires forall t | t in e.tenders :: Concrete(t)
    ensures HeaderFollows(order, Header(order, e, accounted, now), e, accounted)
  {
    if |e.tenders| == 1 {
      assert e.tenders == {TheOnly(e.tenders)} by { OnlyOne(e.tenders); }
    }
  }

  /** The header says paid only over evidence that covers a positive total; a paid header is never
      cleared; the accounting stamp is written at most once; the tender is MIXED unless exactly one
      tender contributes; the paid time is the latest contributing stamp, never the clock.
      Unreadable evidence changes nothing. */
  lemma HeaderIsEvidence(db: Db, o: nat, accounted: Option<int>, now: int)
    requires o in db.orders
    ensures match PaymentEvidence(db, o)
      case Err(_) => Recompute(db, o, accounted, now) == db
      case Ok(e) => HeaderFollows(db.orders[o], Recompute(db, o, accounted, now).orders[o], e, accounted)
  {
    var evidence := PaymentEvidence(db, o);
    if evidence.Ok? {
      EvidenceBounds(db, o);
      HeaderRule(db.orders[o], evidence.value, accounted, now);
    }
  }

  lemma HeaderTwice(order: Order, e: Evidence, accounted: Option<int>, now: int, accounted': Option<int>, now': int)
    requires e.total > 0 ==> e.paidAt.Some?
    ensures var h := Header(order, e, accounted, now); Header(h, e, accounted', now') == h
  {
  }

  /** Deriving the header twice is deriving it once, whatever clock the second call carries. */
  lemma RecomputeTwice(db: Db, o: nat, accounted: Option<int>, now: int, accounted': Option<int>, now': int)
    requires o in db.orders
    ensures var r := Recompute(db, o, accounted, now); Recompute(r, o, accounted', now') == r
  {
    hide PaymentEvidence, Header;
    RecomputeFrame(db, o, accounted, now);
    if PaymentEvidence(db, o).Ok? {
      EvidenceBounds(db, o);
      HeaderTwice(db.orders[o], PaymentEvidence(db, o).value, accounted, now, accounted', now');
      var r := Recompute(db, o, accounted, now);
      assert r.orders[o := r.orders[o]] == r.orders;
    }
  }

  // ----- repairing and adding evidence ------------------------------------------------------

  /** A branch that settlement evidence can be compared by. */
  predicate CleanBranch(b: Text) {
    Stripped(b) || Strip(b) == []
  }

  ghost predicate Healthy(db: Db, o: nat) {
    o in db.orders && CleanBranch(db.orders[o].branch) && PaymentEvidence(db, o).Ok?
  }

  /** The synced courier rows of the order stand under the branch text its writers store: the
      order's own, without outer blanks. */
  ghost predicate OwnRows(db: Db, o: nat)
    requires o in db.orders
  {
    var branch := Strip(db.orders[o].branch);
    branch == [] || forall r | r in db.exts && OfExt(r, o) :: r.branch == branch
  }

  /** Nothing beyond the order's total is collected outside the drawer. */
  ghost predicate WithinTotal(db: Db, o: nat) {
    o in db.orders && OwnRows(db, o) && NonDrawer(db, o) <= db.orders[o].total
  }

  lemma HealthyIsWithin(db: Db, o: nat)
    requires Healthy(db, o)
    ensures WithinTotal(db, o)
  {
    hide Strip, Collections, TillTally, PaymentEvidence, NonDrawer, Stripped;
    EvidenceReadable(db, o);
    StripFixed(db.orders[o].branch);
    hide Mirrored;
  }

  /** A key without a row of its own is not mirrored. */
  lemma UnmirroredIsAbsent(db: Db, o: nat, key: Text)
    requires o in db.orders && OwnRows(db, o) && Strip(db.orders[o].branch) != []
    requires FindExt(db.exts, Strip(db.orders[o].branch), key).None?
    ensures key !in Mirrored(db.exts, o)
  {
    hide Strip;
    forall r | r in db.exts && OfExt(r, o) ensures r.sourceId != key {
      assert !Holds(r, Strip(db.orders[o].branch), key);
    }
  }

  lemma OtherOrdersUnread(db: Db, r: Ext, x: nat)
    requires x in db.orders && r.order != x
    ensures PaymentEvidence(db.(exts := db.exts + [r]), x) == PaymentEvidence(db, x)
  {
    ExtAppend(db.exts, r, x, db.orders[x].branch);
  }

  /** A successful repair finds the row or adds exactly the missing mirror. */
  lemma RepairAdds(db: Db, pk: nat)
    requires pk < |db.payments| && db.payments[pk].order in db.orders
    ensures var p := db.payments[pk]; var r := EnsureEvidence(db, pk, p.order);
      r.Ok? ==>
        || r.value == db
        || (&& r.value == AddMirror(db, pk)
            && FindExt(db.exts, Strip(db.orders[p.order].branch), p.key).None?
            && Strip(db.orders[p.order].branch) != [])
  {
  }

  /** Ensuring the evidence of a row that already counts changes no healthy order's evidence. */
  lemma RepairKeepsEvidence(db: Db, pk: nat, x: nat)
    requires Valid(db) && pk < |db.payments| && db.payments[pk].Collected()
    requires Healthy(db, x)
    ensures var r := EnsureEvidence(db, pk, db.payments[pk].order);
      r.Ok? ==> PaymentEvidence(r.value, x) == PaymentEvidence(db, x)
  {
    RepairAdds(db, pk);
    var p := db.payments[pk];
    var o := p.order;
    var r := EnsureEvidence(db, pk, o);
    if r.Ok? && r.value != db {
      RepairKeepsEvidenceOf(db, pk, x);
    }
  }

  lemma RepairKeepsEvidenceOf(db: Db, pk: nat, x: nat)
    requires Valid(db) && pk < |db.payments| && db.payments[pk].Collected()
    requires Healthy(db, x)
    requires var branch := Strip(db.orders[db.payments[pk].order].branch);
      branch != [] && FindExt(db.exts, branch, db.payments[pk].key).None?
    ensures PaymentEvidence(AddMirror(db, pk), x) == PaymentEvidence(db, x)
  {
    var p := db.payments[pk];
    if x == p.order {
      HealthyIsWithin(db, x);
      UnmirroredIsAbsent(db, x, p.key);
      MirrorNeverCountsTwice(db, pk);
    } else {
      var mirror := MirrorOf(p, p.order, db.orders[p.order].branch);
      assert AddMirror(db, pk) == db.(exts := db.exts + [mirror]);
      OtherOrdersUnread(db, mirror, x);
    }
  }

  lemma {:induction false} LegacyUpdateUnseen(ps: seq<Payment>, pk: nat, q: Payment, o: nat, mirrored: set<Text>, branch: Text)
    requires pk < |ps| && !OfLegacy(ps[pk], o, mirrored) && !OfLegacy(q, o, mirrored)
    ensures LegacyTally(ps[pk := q], o, mirrored) == LegacyTally(ps, o, mirrored)
    ensures FirstLegacyFault(ps[pk := q], o, mirrored, branch) == FirstLegacyFault(ps, o, mirrored, branch)
  {
    var n := |ps| - 1;
    if pk == n {
      assert ps[pk := q][..n] == ps[..n];
    } else {
      assert ps[pk := q][..n] == ps[..n][pk := q];
      LegacyUpdateUnseen(ps[..n], pk, q, o, mirrored, branch);
    }
  }

  /** `after` holds the collected row `p` that `before` did not count. */
  ghost predicate NewlyCollected(before: Db, after: Db, pk: nat) {
    && pk < |after.payments| && after.payments[pk].Collected()
    && after == before.(payments := after.payments)
    && (|| after.payments == before.payments + [after.payments[pk]]
        || (&& pk < |before.payments| && after.payments == before.payments[pk := after.payments[pk]]
            && !before.payments[pk].Collected()
            && after.payments[pk].order == before.payments[pk].order
            && after.payments[pk].key == before.payments[pk].key))
  }

  /** A newly collected row whose key is mirrored is invisible to the legacy fold. */
  lemma NewRowHidden(before: Db, after: Db, pk: nat, x: nat, mirrored: set<Text>, branch: Text)
    requires Valid(after) && NewlyCollected(before, after, pk)
    requires after.payments[pk].order != x || after.payments[pk].key in mirrored
    ensures LegacyTally(after.payments, x, mirrored) == LegacyTally(before.payments, x, mirrored)
    ensures FirstLegacyFault(after.payments, x, mirrored, branch) == FirstLegacyFault(before.payments, x, mirrored, branch)
  {
    var p := after.payments[pk];
    if after.payments == before.payments + [p] {
      LegacyAppend(before.payments, p, x, mirrored, branch);
    } else {
      LegacyUpdateUnseen(before.payments, pk, p, x, mirrored, branch);
    }
  }

  lemma OthersLackTheKey(before: Db, after: Db, pk: nat, key: Text, o: nat)
    requires Valid(after) && NewlyCollected(before, after, pk) && key == after.payments[pk].key
    ensures forall i | 0 <= i < |before.payments| ::
      before.payments[i].key != key || before.payments[i].order != o || !before.payments[i].Collected()
  {
    forall i | 0 <= i < |before.payments|
      ensures before.payments[i].key != key || before.payments[i].order != o || !before.payments[i].Collected()
    {
      if after.payments == before.payments + [after.payments[pk]] {
        var n := |before.payments|;
        assert after.payments[n] == after.payments[pk];
        assert after.payments[n].key == key;
        assert after.payments[i] == before.payments[i];
      } else if i != pk {
        assert after.payments[i] == before.payments[i];
      }
    }
  }

  /** An order's evidence depends on its header's total and branch and on three folds. */
  lemma SameFolds(a: Db, b: Db, x: nat)
    requires x in a.orders && x in b.orders && a.tills == b.tills
    requires a.orders[x].branch == b.orders[x].branch && a.orders[x].total == b.orders[x].total
    requires Collections(a, x) == Collections(b, x)
    requires var branch := a.orders[x].branch;
      && FirstExtFault(a.exts, x, branch) == FirstExtFault(b.exts, x, branch)
      && FirstLegacyFault(a.payments, x, Mirrored(a.exts, x), branch)
      == FirstLegacyFault(b.payments, x, Mirrored(b.exts, x), branch)
    ensures PaymentEvidence(a, x) == PaymentEvidence(b, x)
  {
  }

  lemma CollectElsewhere(before: Db, after: Db, pk: nat, x: nat)
    requires Valid(after) && NewlyCollected(before, after, pk) && after.payments[pk].order != x
    requires x in before.orders
    requires EnsureEvidence(after, pk, after.payments[pk].order).Ok?
    ensures var done := EnsureEvidence(after, pk, after.payments[pk].order).value;
      PaymentEvidence(done, x) == PaymentEvidence(before, x) && Collections(done, x) == Collections(before, x)
  {
    var p := after.payments[pk];
    var done := EnsureEvidence(after, pk, p.order).value;
    var branch := before.orders[x].branch;
    RepairAdds(after, pk);
    if done.exts != before.exts {
      ExtAppend(before.exts, MirrorOf(p, p.order, before.orders[p.order].branch), x, branch);
    }
    NewRowHidden(before, after, pk, x, Mirrored(before.exts, x), branch);
    SameFolds(before, done, x);
  }

  /** The evidence row was already there (synced from another edition): nothing is added. */
  lemma CollectFound(before: Db, after: Db, pk: nat, o: nat)
    requires Valid(after) && NewlyCollected(before, after, pk) && after.payments[pk].order == o
    requires o in before.orders
    requires EnsureEvidence(after, pk, o) == Ok(after)
    ensures PaymentEvidence(after, o) == PaymentEvidence(before, o) && Collections(after, o) == Collections(before, o)
  {
    var p := after.payments[pk];
    var mirror := MirrorOf(p, o, before.orders[o].branch);
    var found := FindExt(before.exts, mirror.branch, p.key);
    assert before.exts[found.value] == mirror && mirror in before.exts && OfExt(mirror, o);
    assert p.key in Mirrored(before.exts, o);
    NewRowHidden(before, after, pk, o, Mirrored(before.exts, o), before.orders[o].branch);
    SameFolds(before, after, o);
  }

  /** A newly mirrored row leaves the legacy fold as it was before the collection. */
  lemma CollectedIsMirrored(before: Db, after: Db, pk: nat, o: nat, mirrored: set<Text>)
    requires Valid(after) && NewlyCollected(before, after, pk) && after.payments[pk].order == o
    ensures var key := after.payments[pk].key;
      && LegacyTally(after.payments, o, mirrored + {key}) == LegacyTally(before.payments, o, mirrored)
      && forall branch :: FirstLegacyFault(before.payments, o, mirrored, branch).None?
           ==> FirstLegacyFault(after.payments, o, mirrored + {key}, branch).None?
  {
    var key := after.payments[pk].key;
    OthersLackTheKey(before, after, pk, key, o);
    LegacyUntouched(before.payments, o, mirrored, key);
    forall branch ensures FirstLegacyFault(before.payments, o, mirrored, branch).None?
           ==> FirstLegacyFault(after.payments, o, mirrored + {key}, branch).None?
    {
      NewRowHidden(before, after, pk, o, mirrored + {key}, branch);
      if FirstLegacyFault(before.payments, o, mirrored, branch).None? {
        LegacyFaultShrinks(before.payments, o, mirrored, key, branch);
      }
    }
    NewRowHidden(before, after, pk, o, mirrored + {key}, []);
  }

  /** The evidence row is new: the order's collections grow by exactly the amount. */
  lemma CollectAdded(before: Db, after: Db, pk: nat, o: nat)
    requires Valid(after) && NewlyCollected(before, after, pk) && after.payments[pk].order == o
    requires o in before.orders && PaymentEvidence(before, o).Ok?
    ensures var p, done := after.payments[pk], AddMirror(after, pk);
      var branch := before.orders[o].branch;
      && Collections(done, o).exact == Collections(before, o).exact + p.amount
      && FirstExtFault(done.exts, o, branch) == ExtFault(MirrorOf(p, o, before.orders[o].branch), branch)
      && FirstLegacyFault(done.payments, o, Mirrored(done.exts, o), branch).None?
  {
    hide Strip, TillTally, ExtTally, LegacyTally, FirstTillFault, FirstExtFault, FirstLegacyFault, Mirrored;
    var p := after.payments[pk];
    var mirror := MirrorOf(p, o, before.orders[o].branch);
    var mirrored := Mirrored(before.exts, o);
    var done := AddMirror(after, pk);
    assert done.exts == before.exts + [mirror];
    ExtAppend(before.exts, mirror, o, before.orders[o].branch);
    assert Mirrored(done.exts, o) == mirrored + {p.key};
    CollectedIsMirrored(before, after, pk, o, mirrored);
  }

  /** A mirror that may be written reads back without a fault, on a blank-free branch. */
  lemma MirrorIsReadable(p: Payment, o: nat, branch: Text)
    requires EvidenceClash(p, o, branch).None? && CleanBranch(branch)
    ensures ExtFault(MirrorOf(p, o, branch), branch).None?
  {
    hide Strip;
    StripFixed(branch);
  }

  /** Collecting within capacity and writing the evidence leaves the order readable and within
      its total. */
  lemma CollectHere(before: Db, after: Db, pk: nat, o: nat)
    requires Valid(after) && NewlyCollected(before, after, pk) && after.payments[pk].order == o
    requires Healthy(before, o)
    requires CapacityError(before, o, after.payments[pk].amount).None?
    requires EnsureEvidence(after, pk, o).Ok?
    ensures PaymentEvidence(EnsureEvidence(after, pk, o).value, o).Ok?
  {
    hide Strip, Collections, TillTally, FirstTillFault, FirstExtFault, FirstLegacyFault, Settled;
    RepairAdds(after, pk);
    if EnsureEvidence(after, pk, o).value == after {
      CollectFound(before, after, pk, o);
    } else {
      var p := after.payments[pk];
      var branch := before.orders[o].branch;
      MirrorIsReadable(p, o, branch);
      CollectAdded(before, after, pk, o);
      assert NonDrawer(before, o) + p.amount <= before.orders[o].total by {
        EvidenceBounds(before, o);
      }
    }
  }

  lemma CollectKeepsHealth(before: Db, after: Db, pk: nat, x: nat)
    requires Valid(after) && NewlyCollected(before, after, pk)
    requires after.payments[pk].order in before.orders
    requires CapacityError(before, after.payments[pk].order, after.payments[pk].amount).None?
    requires EnsureEvidence(after, pk, after.payments[pk].order).Ok?
    requires Healthy(before, x)
    ensures Healthy(EnsureEvidence(after, pk, after.payments[pk].order).value, x)
  {
    RepairAdds(after, pk);
    if x == after.payments[pk].order {
      CollectHere(before, after, pk, x);
    } else {
      CollectElsewhere(before, after, pk, x);
    }
  }

  // ----- the bound on every branch ----------------------------------------------------------

  /** Writing a mirror keeps the rows of every order under the stripped branch. */
  lemma MirrorIsOwn(db: Db, pk: nat, x: nat)
    requires pk < |db.payments| && db.payments[pk].order in db.orders && x in db.orders && OwnRows(db, x)
    ensures OwnRows(AddMirror(db, pk), x)
  {
    hide Strip;
    var done := AddMirror(db, pk);
    forall r | r in done.exts && OfExt(r, x) && Strip(db.orders[x].branch) != []
      ensures r.branch == Strip(db.orders[x].branch)
    {
      assert r in db.exts || r == done.exts[|db.exts|];
    }
  }

  /** A repair moves money between two sources, on any branch. */
  lemma RepairKeepsMoney(db: Db, pk: nat, x: nat)
    requires Valid(db) && pk < |db.payments| && db.payments[pk].Collected() && WithinTotal(db, x)
    ensures var r := EnsureEvidence(db, pk, db.payments[pk].order); r.Ok? ==> WithinTotal(r.value, x)
  {
    hide Strip, TillTally, Collections, EvidenceClash;
    var p := db.payments[pk];
    RepairAdds(db, pk);
    if EnsureEvidence(db, pk, p.order).Ok? && EnsureEvidence(db, pk, p.order).value != db {
      MirrorIsOwn(db, pk, x);
      if x == p.order {
        UnmirroredIsAbsent(db, x, p.key);
        MirrorMoves(db, pk, x);
      } else {
        MirrorElsewhere(db, pk, x);
      }
    }
  }

  lemma MirrorElsewhere(db: Db, pk: nat, x: nat)
    requires pk < |db.payments| && db.payments[pk].order in db.orders && db.payments[pk].order != x
    ensures Collections(AddMirror(db, pk), x) == Collections(db, x)
  {
    var mirror := AddMirror(db, pk).exts[|db.exts|];
    assert AddMirror(db, pk).exts == db.exts + [mirror];
    ExtAppend(db.exts, mirror, x, []);
  }

  /** The money of a new collection within capacity fits, whatever rows the order has. */
  lemma CollectedFits(before: Db, after: Db, pk: nat, x: nat)
    requires Valid(after) && NewlyCollected(before, after, pk)
    requires after.payments[pk].order in before.orders
    requires CapacityError(before, after.payments[pk].order, after.payments[pk].amount).None?
    requires EnsureEvidence(after, pk, after.payments[pk].order).Ok?
    requires x in before.orders && NonDrawer(before, x) <= before.orders[x].total
    ensures NonDrawer(EnsureEvidence(after, pk, after.payments[pk].order).value, x) <= before.orders[x].total
  {
    hide Strip, Collections, TillTally, FirstTillFault, FirstExtFault, FirstLegacyFault, Settled, EvidenceClash, Valid;
    var o := after.payments[pk].order;
    var done := EnsureEvidence(after, pk, o).value;
    RepairAdds(after, pk);
    if x != o {
      CollectElsewhere(before, after, pk, x);
    } else if done == after {
      CollectFound(before, after, pk, o);
    } else {
      CollectAdded(before, after, pk, o);
      EvidenceBounds(before, o);
    }
  }

  /** A new collection within capacity fits, on any branch. */
  lemma CollectKeepsMoney(before: Db, after: Db, pk: nat, x: nat)
    requires Valid(after) && NewlyCollected(before, after, pk)
    requires after.payments[pk].order in before.orders
    requires CapacityError(before, after.payments[pk].order, after.payments[pk].amount).None?
    requires EnsureEvidence(after, pk, after.payments[pk].order).Ok?
    requires WithinTotal(before, x)
    ensures WithinTotal(EnsureEvidence(after, pk, after.payments[pk].order).value, x)
  {
    CollectedFits(before, after, pk, x);
    hide NonDrawer, CapacityError, EvidenceClash, Valid, Strip;
    RepairAdds(after, pk);
    if EnsureEvidence(after, pk, after.payments[pk].order).value != after {
      MirrorIsOwn(after, pk, x);
    }
  }

  // ----- counted under another branch text ----------------------------------------------------

  /** Payment `pk` already counts through a synced row, but its evidence would be written a second
      time, because no row of its key stands under the stripped branch; and that no longer fits. */
  ghost predicate CountsAgain(db: Db, pk: nat, o: nat)
    requires o in db.orders
  {
    && pk < |db.payments|
    && var p, branch := db.payments[pk], db.orders[o].branch;
       && p.Collected() && p.order == o && p.key in Mirrored(db.exts, o)
       && EvidenceClash(p, o, branch).None?
       && FindExt(db.exts, Strip(branch), p.key).None?
       && NonDrawer(db, o) + p.amount > db.orders[o].total
  }

  /** One transaction leaves an order within its total, unless a payment counts again. */
  ghost predicate Fits(db: Db, db': Db, o: nat) {
    o in db.orders && NonDrawer(db, o) <= db.orders[o].total && (forall pk :: !CountsAgain(db, pk, o))
    ==> NonDrawer(db', o) <= db.orders[o].total
  }

  /** A second evidence row adds the amount once more. */
  lemma SecondRowAdds(db: Db, pk: nat)
    requires pk < |db.payments| && db.payments[pk].order in db.orders
    requires db.payments[pk].key in Mirrored(db.exts, db.payments[pk].order)
    ensures var p := db.payments[pk]; NonDrawer(AddMirror(db, pk), p.order) == NonDrawer(db, p.order) + p.amount
  {
    hide TillTally;
    var p := db.payments[pk];
    var mirror := AddMirror(db, pk).exts[|db.exts|];
    assert AddMirror(db, pk).exts == db.exts + [mirror];
    ExtAppend(db.exts, mirror, p.order, []);
    assert Mirrored(db.exts, p.order) + {p.key} == Mirrored(db.exts, p.order);
  }

  lemma RepairFits(db: Db, pk: nat, x: nat)
    requires Valid(db) && pk < |db.payments| && db.payments[pk].Collected()
    ensures var r := EnsureEvidence(db, pk, db.payments[pk].order); r.Ok? ==> Fits(db, r.value, x)
  {
    hide Strip, Collections, TillTally;
    var p := db.payments[pk];
    var r := EnsureEvidence(db, pk, p.order);
    RepairAdds(db, pk);
    if r.Ok? && r.value != db && x in db.orders {
      if x != p.order {
        MirrorElsewhere(db, pk, x);
      } else if p.key in Mirrored(db.exts, x) {
        SecondRowAdds(db, pk);
        assert CountsAgain(db, pk, x) || NonDrawer(db, x) + p.amount <= db.orders[x].total;
      } else {
        MirrorMoves(db, pk, x);
      }
    }
  }
}
