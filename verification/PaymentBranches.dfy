/** Orders whose branch text has blanks at its ends: what their evidence rows do to them. */
module PaymentBranches {
  import opened Common
  import opened Text
  import opened PaymentRows
  import opened PaymentIdentity
  import opened PaymentFold
  import opened PaymentTransactions
  import opened PaymentSafety
  import opened PaymentRuns
  import opened PaymentReplay
  import opened PaymentUnique

  // ----- the order becomes unreadable -------------------------------------------------------

  /** A synced row of the order stands under another text than the order's branch. */
  ghost predicate Locked(db: Db, o: nat)
    requires o in db.orders
  {
    exists r :: r in db.exts && OfExt(r, o) && r.branch != db.orders[o].branch
  }

  /** Neither a collection nor a header derivation gets past such a row. */
  lemma LockedRefuses(db: Db, o: nat, amount: int, accounted: Option<int>, now: int)
    requires o in db.orders && Locked(db, o)
    ensures PaymentEvidence(db, o).Err? && CapacityError(db, o, amount).Some? && Recompute(db, o, accounted, now) == db
  {
    EvidenceReadable(db, o);
  }

  lemma MirrorIsThere(db: Db, pk: nat)
    requires pk < |db.payments| && db.payments[pk].order in db.orders
    ensures var p := db.payments[pk]; var r := EnsureEvidence(db, pk, p.order);
      r.Ok? ==> r.value.orders == db.orders && MirrorOf(p, p.order, db.orders[p.order].branch) in r.value.exts
  {
    hide EvidenceClash, Strip;
  }

  /** Evidence written or found for a collection locks an order whose branch is not clean. */
  lemma EvidenceLocks(db: Db, pk: nat)
    requires pk < |db.payments| && db.payments[pk].order in db.orders
    requires !CleanBranch(db.orders[db.payments[pk].order].branch)
    ensures var r := EnsureEvidence(db, pk, db.payments[pk].order);
      r.Ok? ==> r.value.orders == db.orders && Locked(r.value, db.payments[pk].order)
  {
    var p := db.payments[pk];
    var o := p.order;
    StripFixed(db.orders[o].branch);
    MirrorIsThere(db, pk);
    hide EnsureEvidence, Strip;
    assert OfExt(MirrorOf(p, o, db.orders[o].branch), o);
  }

  /** A collection within capacity leaves its order readable exactly when the branch text has no
      outer blanks (or is nothing but blanks, where no evidence can be written at all). */
  lemma CollectReadableIff(before: Db, after: Db, pk: nat)
    requires Valid(after) && NewlyCollected(before, after, pk)
    requires var o := after.payments[pk].order;
      o in before.orders && CapacityError(before, o, after.payments[pk].amount).None? && EnsureEvidence(after, pk, o).Ok?
    ensures var o := after.payments[pk].order;
      PaymentEvidence(EnsureEvidence(after, pk, o).value, o).Ok? <==> CleanBranch(before.orders[o].branch)
  {
    var o := after.payments[pk].order;
    if CleanBranch(before.orders[o].branch) {
      CollectHere(before, after, pk, o);
    } else {
      EvidenceLocks(after, pk);
      LockedRefuses(EnsureEvidence(after, pk, o).value, o, 0, None, 0);
    }
  }

  lemma LockStays(a: Db, b: Db, o: nat)
    requires Keeps(a, b, o) && Grows(a, b) && o in a.orders && Locked(a, o)
    ensures o in b.orders && Locked(b, o)
  {
    var r :| r in a.exts && OfExt(r, o) && r.branch != a.orders[o].branch;
    assert r in b.exts;
  }

  lemma {:induction false} LockedForGood(run: seq<Db>, hash: Text -> Text, cmds: seq<Command>, o: nat, i: nat, j: nat)
    requires IsRun(run, hash, cmds) && i <= j < |run| && o in run[i].orders && Locked(run[i], o)
    ensures o in run[j].orders && Locked(run[j], o)
    decreases j
  {
    hide Locked, Keeps, Grows, Fits, Valid, Apply;
    if i < j {
      LockedForGood(run, hash, cmds, o, i, j - 1);
      assert run[j] == Apply(run[j - 1], hash, cmds[j - 1]).db;
      ApplyKeeps(run[j - 1], hash, cmds[j - 1], o);
      ApplyGrows(run[j - 1], hash, cmds[j - 1]);
      LockStays(run[j - 1], run[j], o);
    }
  }

  /** What is wrong with such a branch: once a create was accepted on its order, the order's
      evidence is unreadable in every later state of every run, so no further collection is
      accepted and the header is never derived again. */
  lemma UncleanBranchLocks(
    run: seq<Db>, hash: Text -> Text, cmds: seq<Command>, i: nat, j: nat, amount: int, accounted: Option<int>, now: int)
    requires IsRun(run, hash, cmds) && i < |cmds| && i < j < |run| && cmds[i].DoCreate?
    requires Create(run[i], hash, cmds[i].req, cmds[i].now).reply.Accepted?
    requires cmds[i].req.order in run[i].orders && !CleanBranch(run[i].orders[cmds[i].req.order].branch)
    ensures var o := cmds[i].req.order;
      && o in run[j].orders
      && PaymentEvidence(run[j], o).Err?
      && CapacityError(run[j], o, amount).Some?
      && Recompute(run[j], o, accounted, now) == run[j]
  {
    hide Locked, Fits, Create, CleanBranch, Established, PaymentEvidence, CapacityError, Recompute;
    var o := cmds[i].req.order;
    assert Valid(run[i]) && run[i + 1] == Create(run[i], hash, cmds[i].req, cmds[i].now).db;
    CreateLocks(run[i], hash, cmds[i].req, cmds[i].now);
    LockedForGood(run, hash, cmds, o, i + 1, j);
    LockedRefuses(run[j], o, amount, accounted, now);
  }

  lemma CreateLocks(db: Db, hash: Text -> Text, req: Request, now: int)
    requires Valid(db) && Create(db, hash, req, now).reply.Accepted?
    requires req.order in db.orders && !CleanBranch(db.orders[req.order].branch)
    ensures var done := Create(db, hash, req, now).db; req.order in done.orders && Locked(done, req.order)
  {
    hide Fits, Locked, Create, CleanBranch, PaymentEvidence, Refusal, KeyOf, Recompute, EnsureEvidence, WithinTotal, Healthy;
    CreateRecords(db, hash, req, now);
    CreateKeeps(db, hash, req, now, req.order);
    EvidenceLocks(Create(db, hash, req, now).db, Create(db, hash, req, now).reply.pk);
  }

  /** An order of 100 without any rows. */
  function FreshDb(branch: Text): Db {
    Db(map[0 := Order(branch, 100, true, None, [], false, None, None, None)], [], [], [], [])
  }

  lemma NothingCollected(db: Db, o: nat)
    requires o in db.orders && db.tills == [] && db.exts == [] && db.payments == [] && db.orders[o].total > 0
    ensures var e := PaymentEvidence(db, o); e.Ok? && e.value.due == db.orders[o].total && e.value.total == 0
  {
    hide TillTally, ExtTally, LegacyTally, FirstTillFault, FirstExtFault, FirstLegacyFault, Mirrored, Settled, Collections;
    NoRows(o, db.orders[o].branch, {});
    NoCollections(db, o);
    NothingSettled(db.orders[o].total, NoRowsTally(), Collections(db, o));
  }

  lemma NoCollections(db: Db, o: nat)
    requires db.exts == [] && db.payments == []
    ensures Collections(db, o).exact == 0
    ensures Mirrored(db.exts, o) == {}
  {
    hide Later;
    NoRows(o, [], {});
  }

  lemma NothingSettled(due: int, till: Tally, collected: Tally)
    requires due > 0 && till.exact == till.cash == collected.exact == 0
    ensures Settled(due, till, collected).due == due && Settled(due, till, collected).total == 0
  {
    hide Later;
  }

  lemma FreshHasRoom(branch: Text)
    ensures CapacityError(FreshDb(branch), 0, 100).None?
  {
    hide PaymentEvidence;
    NothingCollected(FreshDb(branch), 0);
  }

  lemma FreshIsValid(branch: Text)
    ensures Valid(FreshDb(branch))
  {
  }

  lemma CleanKeyIs(key: Text)
    requires key != [] && Stripped(key) && |key| <= 128
    ensures CleanKey(key) == key && Strip(key) != []
  {
    StripFixed(key);
  }

  /** Such a create can be accepted: the whole of a fresh order under an explicit key. */
  lemma UncleanCreateIsAccepted(branch: Text, key: Text, hash: Text -> Text, now: int)
    requires !CleanBranch(branch) && key != [] && Stripped(key) && |key| <= 128
    ensures var db, req := FreshDb(branch), Request(None, 0, ByCash, Given(100), key);
      var step := Create(db, hash, req, now);
      && Valid(db) && PaymentEvidence(db, 0).Ok? && step.reply.Accepted?
      && 0 in step.db.orders && PaymentEvidence(step.db, 0).Err?
  {
    hide PaymentEvidence, CapacityError, Strip, Create, Valid, Locked, ManualKey, CleanKey;
    var db, req := FreshDb(branch), Request(None, 0, ByCash, Given(100), key);
    FreshHasRoom(branch);
    FreshIsValid(branch);
    CleanKeyIs(key);
    assert branch != [] by { BlankIsBlank(branch); }
    assert KeyOf(db.orders[0], hash, req) == key;
    NewIsAccepted(db, hash, req, now);
    CreateLocks(db, hash, req, now);
    LockedRefuses(Create(db, hash, req, now).db, 0, 0, None, 0);
    RoomIsReadable(db, 0, 100);
  }

  lemma BlankIsBlank(t: Text)
    ensures t == [] ==> Strip(t) == []
  {
  }

  lemma RoomIsReadable(db: Db, o: nat, amount: int)
    requires o in db.orders && CapacityError(db, o, amount).None?
    ensures PaymentEvidence(db, o).Ok?
  {
  }

  // ----- when the bound fails ---------------------------------------------------------------

  /** Some transaction pushes the order past its total. */
  ghost predicate Overflows(db: Db, hash: Text -> Text, o: nat)
    requires Valid(db) && o in db.orders
  {
    exists cmd :: NonDrawer(Apply(db, hash, cmd).db, o) > db.orders[o].total
  }

  function LatePaid(pk: nat): Command {
    DoWebhook(Callback(PaidWord, Some(pk), [], None, ByCash, Given(0), true), 0)
  }

  lemma LatePaidRepairs(db: Db, hash: Text -> Text, pk: nat, db': Db)
    requires Valid(db) && pk < |db.payments| && db.payments[pk].Collected()
    requires var o := db.payments[pk].order; db.orders[o].branch != [] && EnsureEvidence(db, pk, o) == Ok(db')
    ensures db'.orders == db.orders && Apply(db, hash, LatePaid(pk)).db == Recompute(db', db.payments[pk].order, None, 0)
  {
    hide PaymentEvidence, EnsureRow, CleanKey, FindKey, Recompute;
  }

  lemma AbsentIsAdded(db: Db, pk: nat)
    requires pk < |db.payments| && db.payments[pk].order in db.orders
    requires var p := db.payments[pk];
      && EvidenceClash(p, p.order, db.orders[p.order].branch).None?
      && FindExt(db.exts, Strip(db.orders[p.order].branch), p.key).None?
    ensures EnsureEvidence(db, pk, db.payments[pk].order) == Ok(AddMirror(db, pk))
    ensures db.orders[db.payments[pk].order].branch != []
  {
  }

  lemma RowsFixNonDrawer(a: Db, b: Db, o: nat)
    requires b == a.(orders := b.orders)
    ensures NonDrawer(b, o) == NonDrawer(a, o)
  {
  }

  lemma CountsAgainOverflows(db: Db, hash: Text -> Text, pk: nat, o: nat)
    requires Valid(db) && o in db.orders && CountsAgain(db, pk, o)
    ensures Overflows(db, hash, o)
  {
    hide Apply, NonDrawer, EnsureEvidence, PaymentEvidence, Strip, Header;
    AbsentIsAdded(db, pk);
    var db' := AddMirror(db, pk);
    LatePaidRepairs(db, hash, pk, db');
    SecondRowAdds(db, pk);
    RowsFixNonDrawer(db', Recompute(db', o, None, 0), o);
    assert NonDrawer(Apply(db, hash, LatePaid(pk)).db, o) > db.orders[o].total;
  }

  /** An order within its total is pushed past it by some transaction exactly when it holds a
      collection that counts through a row under another branch text than the one its evidence is
      looked up by, and whose amount does not fit once more. */
  lemma OverflowsIff(db: Db, hash: Text -> Text, o: nat)
    requires Valid(db) && o in db.orders && NonDrawer(db, o) <= db.orders[o].total
    ensures Overflows(db, hash, o) <==> exists pk :: CountsAgain(db, pk, o)
  {
    hide CountsAgain, NonDrawer, Apply, Keeps;
    if pk :| CountsAgain(db, pk, o) {
      CountsAgainOverflows(db, hash, pk, o);
    } else if Overflows(db, hash, o) {
      var cmd :| NonDrawer(Apply(db, hash, cmd).db, o) > db.orders[o].total;
      ApplyKeeps(db, hash, cmd, o);
      assert false;
    }
  }

  ghost predicate HasRawRow(db: Db, o: nat)
    requires o in db.orders
  {
    exists r :: r in db.exts && OfExt(r, o) && r.branch == db.orders[o].branch && !Stripped(r.branch)
  }

  /** Such a row is never one that the ledger wrote: the evidence writer stores the stripped text,
      so on rows of its own (`OwnRows`, which every transaction keeps) the bound holds on every
      branch. On a readable order the row stands under the raw text of an unclean branch. */
  lemma CountsAgainIsForeign(db: Db, pk: nat, o: nat)
    requires o in db.orders && CountsAgain(db, pk, o)
    ensures !OwnRows(db, o)
    ensures PaymentEvidence(db, o).Ok? ==> !CleanBranch(db.orders[o].branch) && HasRawRow(db, o)
  {
    hide Strip, Collections, TillTally;
    var branch, key := db.orders[o].branch, db.payments[pk].key;
    var r :| r in db.exts && OfExt(r, o) && r.sourceId == key;
    assert !Holds(r, Strip(branch), key);
    if PaymentEvidence(db, o).Ok? {
      EvidenceReadable(db, o);
      assert ExtFault(r, branch).None?;
      StripFixed(branch);
    }
  }

  /** An order with one synced courier row, stored under the order's raw branch text. */
  function RawBranchDb(branch: Text, key: Text): Db {
    Db(map[0 := Order(branch, 100, true, None, [], true, Some(CASH), Some(5), Some(5))],
       [], [Ext(0, true, branch, key, CASH, 100, 5, false)],
       [Payment(0, None, ByCash, 100, Paid, key, branch, 5, Some(5))], [])
  }

  lemma RawBranchReadable(branch: Text, key: Text)
    requires key != []
    ensures var db := RawBranchDb(branch, key);
      Valid(db) && key in Mirrored(db.exts, 0) && PaymentEvidence(db, 0).Ok? && NonDrawer(db, 0) == 100
  {
    var db := RawBranchDb(branch, key);
    var p, raw := db.payments[0], db.exts[0];
    assert db.exts == [] + [raw] && db.payments == [] + [p];
    ExtAppend([], raw, 0, branch);
    assert OfExt(raw, 0) && raw in db.exts;
    assert key in Mirrored(db.exts, 0);
    LegacyAppend([], p, 0, Mirrored(db.exts, 0), branch);
  }

  lemma OneRowAbsent(r: Ext, branch: Text, key: Text)
    requires r.branch != branch
    ensures FindExt([r], branch, key).None?
  {
    var found := FindExt([r], branch, key);
  }

  lemma RawBranchCounts(branch: Text, key: Text)
    requires !CleanBranch(branch) && key != [] && Stripped(key)
    ensures var db := RawBranchDb(branch, key); Valid(db) && CountsAgain(db, 0, 0)
  {
    var db := RawBranchDb(branch, key);
    RawBranchReadable(branch, key);
    RawBranchWritable(branch, key);
    OneRowAbsent(db.exts[0], Strip(branch), key);
    hide PaymentEvidence, NonDrawer, Mirrored, EvidenceClash, FindExt, Strip;
  }

  lemma RawBranchWritable(branch: Text, key: Text)
    requires !CleanBranch(branch) && key != [] && Stripped(key)
    ensures var db := RawBranchDb(branch, key);
      EvidenceClash(db.payments[0], 0, branch).None? && db.exts[0].branch != Strip(branch)
  {
    StripFixed(branch);
    StripFixed(key);
    hide Strip;
  }

  /** The smallest such table: 100 in full under the raw text of an unclean branch. A late paid
      callback writes the row a second time, and 200 stand against 100. */
  lemma RawBranchCountsTwice(branch: Text, key: Text, hash: Text -> Text)
    requires !CleanBranch(branch) && key != [] && Stripped(key)
    ensures var db := RawBranchDb(branch, key);
      && Valid(db) && PaymentEvidence(db, 0).Ok? && db.orders[0].total == 100 && CountsAgain(db, 0, 0)
      && NonDrawer(Apply(db, hash, LatePaid(0)).db, 0) == 200
  {
    hide PaymentEvidence, NonDrawer, EnsureEvidence, Apply, Strip, Header, EvidenceClash, FindExt, Mirrored;
    var db := RawBranchDb(branch, key);
    var db' := AddMirror(db, 0);
    RawBranchReadable(branch, key);
    RawBranchCounts(branch, key);
    AbsentIsAdded(db, 0);
    LatePaidRepairs(db, hash, 0, db');
    SecondRowAdds(db, 0);
    RowsFixNonDrawer(db', Recompute(db', 0, None, 0), 0);
  }
}
