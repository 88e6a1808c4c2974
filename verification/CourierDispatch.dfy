/** The dispatch transactions as they run, updating rows in place. */
module CourierDispatch {
  import opened Common
  import opened Text
  import opened Dispatch
  import X = DispatchOutcomes

  predicate Busy(rows: map<nat, Row>, c: nat) {
    exists k :: k in rows && rows[k].courier == Some(c) && BusyStage(rows[k].stage)
  }

  /** Online, active, in the wanted branch, and free when the query ran. */
  predicate Candidate(couriers: map<nat, Courier>, rows: map<nat, Row>, branch: Option<Text>, c: nat) {
    && c in couriers && couriers[c].online && couriers[c].active && !couriers[c].deleted
    && !Busy(rows, c)
    && (branch.Some? ==> couriers[c].branch == Strip(branch.value))
  }

  class CourierDispatch {
    var orders: map<nat, Order>
    var rows: map<nat, Row>
    var couriers: map<nat, Courier>

    constructor (t: Tables)
      ensures Value() == t
    {
      orders, rows, couriers := t.orders, t.rows, t.couriers;
    }

    function Value(): Tables
      reads this
    {
      Tables(orders, rows, couriers)
    }

    method HasOtherWork(c: nat, o: nat) returns (busy: bool)
      ensures busy == BusyElsewhere(rows, c, o)
    {
      var left := rows.Keys;
      while left != {}
        invariant left <= rows.Keys
        invariant forall k | k in rows && k !in left ::
          !(k != o && rows[k].courier == Some(c) && BusyStage(rows[k].stage))
      {
        var k :| k in left;
        if k != o && rows[k].courier == Some(c) && BusyStage(rows[k].stage) {
          return true;
        }
        left := left - {k};
      }
      return false;
    }

    /** Give an order to a courier, who may already have it, unless another courier is under way with it. */
    method Assign(op: Op, now: int) returns (reply: Reply)
      requires op.OpAssign?
      modifies this
      ensures Value() == Atomic(old(Value()), op, now)
      ensures reply == ReplyOf(Alone(old(Value()), op, now))
    {
      hide BusyElsewhere, AssignEffect;
      if op.order !in orders || orders[op.order].deleted { return Refused(NoOrder); }
      var order := orders[op.order];
      if op.rider !in couriers { return Refused(NoCourier); }
      var courier := couriers[op.rider];
      if !courier.active || courier.deleted { return Refused(Suspended); }
      if op.scope.Some? {
        var allowed := Strip(op.scope.value);
        if allowed == [] || Strip(order.branch) != allowed || Strip(courier.branch) != allowed {
          return Refused(OutsideBranch);
        }
      }
      var busy := HasOtherWork(op.rider, op.order);
      if busy { return Refused(CourierBusy); }
      reply := Place(op, order, courier, now);
    }

    /** The rest of an assignment, once the courier is known to be free. */
    method Place(op: Op, order: Order, courier: Courier, now: int) returns (reply: Reply)
      requires op.OpAssign? && op.order in orders && orders[op.order] == order
      modifies this
      ensures var e := AssignEffect(order, Get(old(rows), op.order), courier, op, now);
        Value() == ApplyEffect(old(Value()), op.order, e) && reply == ReplyOf(e)
    {
      if !order.delivery { return Refused(NotDelivery); }
      if order.status == Canceled { return Refused(OrderCanceled); }
      if order.branch != [] && courier.branch != [] && order.branch != courier.branch { return Refused(WrongBranch); }
      var known := op.order in rows;
      if known && rows[op.order].stage != Declined && rows[op.order].courier == Some(op.rider) {
        orders := orders[op.order := order.(legacyRider := None)];
        return Unchanged;
      }
      if order.status == Completed { return Refused(OrderCompleted); }
      if known && Protected(rows[op.order].stage) { return Refused(StageProtected); }
      var startsReady := order.status == KitchenReady;
      var readyAt: Option<int> := None;
      if startsReady { readyAt := Some(order.readyAt.GetOr(now)); }
      rows := rows[op.order :=
        Row(Some(op.rider), if startsReady then Ready else Assigned, op.fee, now, None, readyAt, None, None,
            Some(now + ACCEPT_WINDOW), [], op.address)];
      orders := orders[op.order := order.(legacyRider := None)];
      return Done;
    }

    /** Clear an assignment, keeping the row as evidence of the last courier. */
    method Unassign(op: Op, now: int) returns (reply: Reply)
      requires op.OpUnassign?
      modifies this
      ensures Value() == Atomic(old(Value()), op, now)
      ensures reply == ReplyOf(Alone(old(Value()), op, now))
    {
      hide Strip;
      if op.order !in orders || orders[op.order].deleted { return Refused(NoOrder); }
      if op.scope.Some? {
        var allowed := Strip(op.scope.value);
        if allowed == [] || Strip(orders[op.order].branch) != allowed { return Refused(OutsideBranch); }
      }
      if op.order !in rows || rows[op.order].stage == Declined { return Unchanged; }
      var row := rows[op.order];
      if Protected(row.stage) { return Refused(StageProtected); }
      row := row.(stage := Declined);
      row := row.(reason := CutReason(ClearReason(op.why)));
      row := row.(acceptedAt := None, expiresAt := None);
      rows := rows[op.order := row];
      assert orders[op.order := orders[op.order]] == orders;
      return Done;
    }

    method Accept(op: Op, now: int) returns (reply: Reply)
      requires op.OpAccept?
      modifies this
      ensures Value() == Atomic(old(Value()), op, now)
      ensures reply == ReplyOf(Alone(old(Value()), op, now))
    {
      if op.order !in orders { return Refused(NoOrder); }
      if op.order !in rows || rows[op.order].courier != op.expected { return Refused(Reassigned); }
      var row := rows[op.order];
      if row.expiresAt.Some? && now > row.expiresAt.value { return Refused(WindowExpired); }
      if row.stage != Assigned && row.stage != Ready { return Refused(NotAwaiting); }
      rows := rows[op.order := row.(acceptedAt := Some(now))];
      assert orders[op.order := orders[op.order]] == orders;
      return Done;
    }

    method Decline(op: Op, now: int) returns (reply: Reply)
      requires op.OpDecline?
      modifies this
      ensures Value() == Atomic(old(Value()), op, now)
      ensures reply == ReplyOf(Alone(old(Value()), op, now))
    {
      if op.order !in orders { return Refused(NoOrder); }
      if op.order !in rows || rows[op.order].courier != op.expected { return Refused(Reassigned); }
      var row := rows[op.order];
      if row.stage != Assigned && row.stage != Ready { return Refused(NotAwaiting); }
      row := row.(stage := Declined);
      row := row.(reason := CutReason(op.why));
      rows := rows[op.order := row];
      assert orders[op.order := orders[op.order]] == orders;
      return Done;
    }

    /** The kitchen is done; only the first call moves the row. */
    method MarkReady(op: Op, now: int) returns (reply: Reply)
      requires op.OpReady?
      modifies this
      ensures Value() == Atomic(old(Value()), op, now)
      ensures reply == ReplyOf(Alone(old(Value()), op, now))
    {
      if op.order !in orders || orders[op.order].deleted { return Unchanged; }
      if op.order !in rows || rows[op.order].stage != Assigned { return Unchanged; }
      var row := rows[op.order];
      row := row.(stage := Ready);
      row := row.(readyAt := Some(orders[op.order].readyAt.GetOr(now)));
      rows := rows[op.order := row];
      assert orders[op.order := orders[op.order]] == orders;
      return Done;
    }

    /** The courier moves the order forward. */
    method AdvanceStatus(op: Op, now: int) returns (reply: Reply)
      requires op.OpAdvance?
      modifies this
      ensures Value() == Atomic(old(Value()), op, now)
      ensures reply == ReplyOf(Alone(old(Value()), op, now))
      ensures reply == Done <==> X.MayAdvance(old(Value()), op.order, op.target, op.expected)
      ensures reply == Done ==>
        op.order in rows && rows[op.order].stage == op.target
        && rows[op.order].deliveredAt == if op.target == Delivered then Some(now) else old(rows)[op.order].deliveredAt
    {
      if X.Present(Value(), op.order) { X.AdvanceComes(Value(), op.order, op.target, op.expected, now); }
      hide CanAdvance;
      if !CourierMaySet(op.target) { return Refused(NotSettable); }
      if op.order !in orders || op.order !in rows { return Refused(NoOrder); }
      var row := rows[op.order];
      if row.courier != op.expected { return Refused(Reassigned); }
      if !CanAdvance(row.stage, op.target) { return Refused(IllegalTransition); }
      row := row.(stage := op.target);
      if op.target == Delivered {
        if row.courier.Some? && row.courier.value !in couriers { return Refused(NoCourier); }
        row := row.(deliveredAt := Some(now));
      } else if op.target == PickedUp {
        row := row.(pickedAt := Some(now));
      }
      rows := rows[op.order := row];
      assert orders[op.order := orders[op.order]] == orders;
      if op.target == Delivered && orders[op.order].status != Completed {
        orders := orders[op.order := orders[op.order].(status := Completed)];
      }
      return Done;
    }

    static method Least(s: set<nat>) returns (least: Option<nat>)
      ensures least.None? <==> s == {}
      ensures least.Some? ==> least.value in s && forall x | x in s :: least.value <= x
    {
      least := None;
      var left := s;
      while left != {}
        invariant left <= s
        invariant least.None? <==> left == s
        invariant least.Some? ==> least.value in s && forall x | x in s && x !in left :: least.value <= x
      {
        var x :| x in left;
        if least.None? || x < least.value { least := Some(x); }
        left := left - {x};
      }
    }

    /** Lock free couriers one by one in id order, passing over those another dispatcher holds, and
        recheck each under its lock against the rows committed by then. */
    method PickAvailableCourier(branch: Option<Text>, held: set<nat>, later: map<nat, Row>) returns (pick: Option<nat>)
      ensures pick.Some? ==>
        && Candidate(couriers, rows, branch, pick.value) && pick.value !in held && !Busy(later, pick.value)
        && forall c | Candidate(couriers, rows, branch, c) && c !in held && !Busy(later, c) :: pick.value <= c
      ensures pick.None? ==> forall c | Candidate(couriers, rows, branch, c) && c !in held :: Busy(later, c)
    {
      hide Busy;
      var candidates := set c | c in couriers && Candidate(couriers, rows, branch, c);
      var checked := {};
      while true
        invariant checked <= candidates
        invariant forall c | c in checked :: Busy(later, c)
        decreases |candidates - checked|
      {
        var first := Least(candidates - checked - held);
        if first.None? {
          forall c | Candidate(couriers, rows, branch, c) && c !in held ensures Busy(later, c) {
            assert c in candidates && c !in candidates - checked - held;
          }
          return None;
        }
        if !Busy(later, first.value) {
          forall c | Candidate(couriers, rows, branch, c) && c !in held && !Busy(later, c) ensures first.value <= c {
            assert c in candidates - checked - held;
          }
          return first;
        }
        assert candidates - checked == (candidates - (checked + {first.value})) + {first.value};
        checked := checked + {first.value};
      }
    }
  }
}
