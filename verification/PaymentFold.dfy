/** What the evidence fold guarantees: bounds, readability, and no double counting. */
module PaymentFold {
  import opened Common
  import opened Text
  import opened PaymentRows

  /** A tally no row of which is negative, unlisted, or without a stamp. */
  ghost predicate Sound(t: Tally) {
    && t.exact >= 0 && t.cash >= 0
    && (forall m | m in t.tenders :: Concrete(m))
    && (t.exact > 0 ==> t.tenders != {})
    && (t.exact > 0 || t.cash > 0 ==> t.latest.Some?)
  }

  lemma PlusSound(a: Tally, b: Tally)
    requires Sound(a) && Sound(b)
    ensures Sound(a.Plus(b))
  {
  }

  lemma {:induction false} TillSound(rows: seq<Till>, o: nat, branch: Text)
    requires FirstTillFault(rows, o, branch).None?
    ensures Sound(TillTally(rows, o))
  {
    if rows != [] {
      TillSound(rows[..|rows| - 1], o, branch);
    }
  }

  lemma {:induction false} ExtSound(rows: seq<Ext>, o: nat, branch: Text)
    requires FirstExtFault(rows, o, branch).None?
    ensures Sound(ExtTally(rows, o))
  {
    if rows != [] {
      ExtSound(rows[..|rows| - 1], o, branch);
    }
  }

  lemma {:induction false} LegacySound(ps: seq<Payment>, o: nat, mirrored: set<Text>, branch: Text)
    requires FirstLegacyFault(ps, o, mirrored, branch).None?
    ensures Sound(LegacyTally(ps, o, mirrored))
  {
    if ps != [] {
      LegacySound(ps[..|ps| - 1], o, mirrored, branch);
    }
  }

  /** Readable evidence lies between nothing and the amount due, and money always has a tender
      and a stamp. */
  lemma EvidenceBounds(db: Db, o: nat)
    requires o in db.orders && PaymentEvidence(db, o).Ok?
    ensures var e := PaymentEvidence(db, o).value;
      && e.due == db.orders[o].total
      && 0 <= NonDrawer(db, o) <= e.total <= e.due
      && (forall m | m in e.tenders :: Concrete(m))
      && (e.total > 0 ==> e.tenders != {} && e.paidAt.Some? && e.hasRows)
  {
    var branch := db.orders[o].branch;
    TillSound(db.tills, o, branch);
    ExtSound(db.exts, o, branch);
    LegacySound(db.payments, o, Mirrored(db.exts, o), branch);
    var till := TillTally(db.tills, o);
    var got := Collections(db, o);
    PlusSound(ExtTally(db.exts, o), LegacyTally(db.payments, o, Mirrored(db.exts, o)));
    var e := PaymentEvidence(db, o).value;
    if e.total > 0 {
      StampsComeFromRows(db, o);
      if till.exact > 0 {
        var m :| m in till.tenders;
        assert m in e.tenders;
      } else if got.exact > 0 {
        var m :| m in got.tenders;
        assert m in e.tenders;
      } else {
        assert CASH in e.tenders;
      }
    }
  }

  lemma {:induction false} StampsComeFromTills(rows: seq<Till>, o: nat)
    ensures TillTally(rows, o).latest.Some? ==> TillTally(rows, o).any
  {
    if rows != [] {
      StampsComeFromTills(rows[..|rows| - 1], o);
    }
  }

  lemma {:induction false} StampsComeFromExts(rows: seq<Ext>, o: nat)
    ensures ExtTally(rows, o).latest.Some? ==> ExtTally(rows, o).any
  {
    if rows != [] {
      StampsComeFromExts(rows[..|rows| - 1], o);
    }
  }

  lemma {:induction false} StampsComeFromLegacy(ps: seq<Payment>, o: nat, mirrored: set<Text>)
    ensures LegacyTally(ps, o, mirrored).latest.Some? ==> LegacyTally(ps, o, mirrored).any
  {
    if ps != [] {
      StampsComeFromLegacy(ps[..|ps| - 1], o, mirrored);
    }
  }

  lemma StampsComeFromRows(db: Db, o: nat)
    ensures var t := TillTally(db.tills, o).Plus(Collections(db, o)); t.latest.Some? ==> t.any
  {
    StampsComeFromTills(db.tills, o);
    StampsComeFromExts(db.exts, o);
    StampsComeFromLegacy(db.payments, o, Mirrored(db.exts, o));
  }

  // ----- readable exactly when every row is --------------------------------------------------

  ghost predicate RowsReadable(db: Db, o: nat)
    requires o in db.orders
  {
    var branch := db.orders[o].branch;
    && (forall r | r in db.tills && OfTill(r, o) :: TillFault(r, branch).None?)
    && (forall r | r in db.exts && OfExt(r, o) :: ExtFault(r, branch).None?)
    && (forall p | p in db.payments && OfLegacy(p, o, Mirrored(db.exts, o)) :: LegacyFault(p, branch).None?)
  }

  lemma {:induction false} TillFaultFree(rows: seq<Till>, o: nat, branch: Text)
    ensures FirstTillFault(rows, o, branch).None?
       <==> forall r | r in rows && OfTill(r, o) :: TillFault(r, branch).None?
  {
    if rows != [] {
      TillFaultFree(rows[..|rows| - 1], o, branch);
      assert rows == rows[..|rows| - 1] + [rows[|rows| - 1]];
    }
  }

  lemma {:induction false} ExtFaultFree(rows: seq<Ext>, o: nat, branch: Text)
    ensures FirstExtFault(rows, o, branch).None?
       <==> forall r | r in rows && OfExt(r, o) :: ExtFault(r, branch).None?
  {
    if rows != [] {
      ExtFaultFree(rows[..|rows| - 1], o, branch);
      assert rows == rows[..|rows| - 1] + [rows[|rows| - 1]];
    }
  }

  lemma {:induction false} LegacyFaultFree(ps: seq<Payment>, o: nat, mirrored: set<Text>, branch: Text)
    ensures FirstLegacyFault(ps, o, mirrored, branch).None?
       <==> forall p | p in ps && OfLegacy(p, o, mirrored) :: LegacyFault(p, branch).None?
  {
    if ps != [] {
      LegacyFaultFree(ps[..|ps| - 1], o, mirrored, branch);
      assert ps == ps[..|ps| - 1] + [ps[|ps| - 1]];
    }
  }

  /** The fold succeeds exactly when every row of the order is well formed and the money that
      bypasses the drawer fits the order total. */
  lemma EvidenceReadable(db: Db, o: nat)
    requires o in db.orders
    ensures PaymentEvidence(db, o).Ok? <==> RowsReadable(db, o) && NonDrawer(db, o) <= db.orders[o].total
  {
    var order := db.orders[o];
    TillFaultFree(db.tills, o, order.branch);
    ExtFaultFree(db.exts, o, order.branch);
    LegacyFaultFree(db.payments, o, Mirrored(db.exts, o), order.branch);
    if RowsReadable(db, o) {
      ExtSound(db.exts, o, order.branch);
      LegacySound(db.payments, o, Mirrored(db.exts, o), order.branch);
    }
  }

  // ----- mirroring one courier row ----------------------------------------------------------

  /** The ledger after the missing synced row of payment `pk` is added. */
  function AddMirror(db: Db, pk: nat): Db
    requires pk < |db.payments| && db.payments[pk].order in db.orders
  {
    var p := db.payments[pk];
    db.(exts := db.exts + [Ext(p.order, true, Strip(db.orders[p.order].branch), p.key,
                               TenderOf(p.provider), p.amount, p.At(), false)])
  }

  lemma NoRows(o: nat, branch: Text, mirrored: set<Text>)
    ensures TillTally([], o) == ExtTally([], o) == LegacyTally([], o, mirrored) == NoRowsTally()
    ensures FirstTillFault([], o, branch).None? && FirstExtFault([], o, branch).None?
    ensures FirstLegacyFault([], o, mirrored, branch).None? && Mirrored([], o) == {}
  {
  }

  lemma TillAppend(rows: seq<Till>, r: Till, o: nat, branch: Text)
    ensures TillTally(rows + [r], o) == if OfTill(r, o) then TillTally(rows, o).Plus(TillRow(r)) else TillTally(rows, o)
    ensures FirstTillFault(rows + [r], o, branch)
         == if FirstTillFault(rows, o, branch).Some? || !OfTill(r, o) then FirstTillFault(rows, o, branch)
            else TillFault(r, branch)
  {
    assert (rows + [r])[..|rows|] == rows;
  }

  lemma ExtAppend(rows: seq<Ext>, r: Ext, o: nat, branch: Text)
    ensures ExtTally(rows + [r], o) == if OfExt(r, o) then ExtTally(rows, o).Plus(ExtRow(r)) else ExtTally(rows, o)
    ensures FirstExtFault(rows + [r], o, branch)
         == if FirstExtFault(rows, o, branch).Some? || !OfExt(r, o) then FirstExtFault(rows, o, branch)
            else ExtFault(r, branch)
    ensures Mirrored(rows + [r], o) == if OfExt(r, o) then Mirrored(rows, o) + {r.sourceId} else Mirrored(rows, o)
  {
    assert (rows + [r])[..|rows|] == rows;
    if OfExt(r, o) {
      assert Mirrored(rows + [r], o) == Mirrored(rows, o) + {r.sourceId} by {
        assert forall x :: x in rows + [r] <==> x in rows || x == r;
        forall k | k in Mirrored(rows, o) + {r.sourceId} ensures k in Mirrored(rows + [r], o) {
          if k == r.sourceId {
            assert r in rows + [r];
          } else {
            var x :| x in rows && OfExt(x, o) && x.sourceId == k;
            assert x in rows + [r];
          }
        }
      }
    } else {
      assert Mirrored(rows + [r], o) == Mirrored(rows, o) by {
        assert forall x :: x in rows + [r] <==> x in rows || x == r;
        forall k | k in Mirrored(rows, o) ensures k in Mirrored(rows + [r], o) {
          var x :| x in rows && OfExt(x, o) && x.sourceId == k;
          assert x in rows + [r];
        }
      }
    }
  }

  lemma LegacyAppend(ps: seq<Payment>, p: Payment, o: nat, mirrored: set<Text>, branch: Text)
    ensures LegacyTally(ps + [p], o, mirrored)
         == if OfLegacy(p, o, mirrored) then LegacyTally(ps, o, mirrored).Plus(LegacyRow(p)) else LegacyTally(ps, o, mirrored)
    ensures FirstLegacyFault(ps + [p], o, mirrored, branch)
         == if FirstLegacyFault(ps, o, mirrored, branch).Some? || !OfLegacy(p, o, mirrored)
            then FirstLegacyFault(ps, o, mirrored, branch) else LegacyFault(p, branch)
  {
    assert (ps + [p])[..|ps|] == ps;
  }

  /** Hiding the one payment that holds `key` takes exactly its row out of the legacy tally. */
  lemma {:induction false} LegacyMirrorOne(ps: seq<Payment>, o: nat, mirrored: set<Text>, pk: nat)
    requires UniqueKeys(ps) && pk < |ps| && OfLegacy(ps[pk], o, mirrored)
    ensures LegacyTally(ps, o, mirrored)
         == LegacyTally(ps, o, mirrored + {ps[pk].key}).Plus(LegacyRow(ps[pk]))
  {
    var n := |ps| - 1;
    var key := ps[pk].key;
    if pk == n {
      LegacyUntouched(ps[..n], o, mirrored, key);
    } else {
      assert ps[..n][pk] == ps[pk];
      LegacyMirrorOne(ps[..n], o, mirrored, pk);
      assert ps[n].key != key;
      assert ps[n].key in mirrored + {key} <==> ps[n].key in mirrored;
    }
  }

  lemma {:induction false} LegacyUntouched(ps: seq<Payment>, o: nat, mirrored: set<Text>, key: Text)
    requires forall i | 0 <= i < |ps| :: ps[i].key != key || ps[i].order != o || !ps[i].Collected()
    ensures LegacyTally(ps, o, mirrored + {key}) == LegacyTally(ps, o, mirrored)
  {
    if ps != [] {
      LegacyUntouched(ps[..|ps| - 1], o, mirrored, key);
    }
  }

  /** Adding the missing mirror row of a payment moves its money between two sources and nothing
      else; the money outside the drawer is unchanged for every order. */
  lemma MirrorMoves(db: Db, pk: nat, o: nat)
    requires Valid(db) && pk < |db.payments|
    requires var p := db.payments[pk]; p.Collected() && p.key !in Mirrored(db.exts, p.order)
    ensures Collections(AddMirror(db, pk), o) == Collections(db, o)
  {
    var p := db.payments[pk];
    var db' := AddMirror(db, pk);
    var row := db'.exts[|db.exts|];
    assert db'.exts == db.exts + [row];
    ExtAppend(db.exts, row, o, []);
    if o == p.order {
      LegacyMirrorOne(db.payments, o, Mirrored(db.exts, o), pk);
      assert ExtRow(row) == LegacyRow(p);
      var e, l := ExtTally(db.exts, o), LegacyTally(db'.payments, o, Mirrored(db'.exts, o));
      PlusSwap(e, l, LegacyRow(p));
    }
  }

  lemma PlusSwap(a: Tally, b: Tally, c: Tally)
    ensures a.Plus(c).Plus(b) == a.Plus(b.Plus(c))
  {
    assert (a.tenders + c.tenders) + b.tenders == a.tenders + (b.tenders + c.tenders);
  }

  /** Shrinking the legacy rows to look at keeps them readable. */
  lemma LegacyFaultShrinks(ps: seq<Payment>, o: nat, mirrored: set<Text>, key: Text, branch: Text)
    requires FirstLegacyFault(ps, o, mirrored, branch).None?
    ensures FirstLegacyFault(ps, o, mirrored + {key}, branch).None?
  {
    LegacyFaultFree(ps, o, mirrored, branch);
    LegacyFaultFree(ps, o, mirrored + {key}, branch);
  }

  /** No double counting: where the evidence was readable, adding a missing mirror row leaves
      every part of it unchanged exactly when the order's branch carries no blanks at its ends.
      (The mirror row stores the stripped branch, the fold compares the raw one.) */
  lemma MirrorNeverCountsTwice(db: Db, pk: nat)
    requires Valid(db) && pk < |db.payments|
    requires var p := db.payments[pk]; p.Collected() && p.key !in Mirrored(db.exts, p.order)
    requires PaymentEvidence(db, db.payments[pk].order).Ok?
    ensures var o := db.payments[pk].order;
      && (Stripped(db.orders[o].branch) ==> PaymentEvidence(AddMirror(db, pk), o) == PaymentEvidence(db, o))
      && (!Stripped(db.orders[o].branch) ==> PaymentEvidence(AddMirror(db, pk), o) == Err(ExtOtherBranch))
  {
    var p := db.payments[pk];
    var o := p.order;
    var branch := db.orders[o].branch;
    var db' := AddMirror(db, pk);
    var row := Ext(o, true, Strip(branch), p.key, TenderOf(p.provider), p.amount, p.At(), false);
    assert db'.exts == db.exts + [row];
    var mirrored := Mirrored(db.exts, o);
    assert Mirrored(db'.exts, o) == mirrored + {p.key}
      && FirstExtFault(db'.exts, o, branch) == ExtFault(row, branch) by {
      ExtAppend(db.exts, row, o, branch);
    }
    assert Collections(db', o) == Collections(db, o) by {
      MirrorMoves(db, pk, o);
    }
    assert LegacyFault(p, branch).None? by {
      LegacyFaultFree(db.payments, o, Mirrored(db.exts, o), branch);
      assert p in db.payments && OfLegacy(p, o, Mirrored(db.exts, o));
    }
    StripFixed(branch);
    if Stripped(branch) {
      LegacyFaultShrinks(db.payments, o, Mirrored(db.exts, o), p.key, branch);
    }
  }
}
