/** Exactly when each dispatch transaction succeeds, and everything it then leaves. */
module DispatchOutcomes {
  import opened Common
  import opened Text
  import opened Dispatch

  /** The transaction succeeds exactly under `may`, and then the order and its row are these and all else
      stays; otherwise it is refused and nothing changes. */
  ghost predicate Comes(t: Tables, op: Op, now: int, may: bool, order: Order, row: Row) {
    if may then
      ReplyOf(Alone(t, op, now)) == Done
      && Atomic(t, op, now) == Tables(t.orders[op.order := order], t.rows[op.order := row], t.couriers)
    else
      Alone(t, op, now).Refuse? && Atomic(t, op, now) == t
  }

  /** Nothing to answer for: no refusal, and the rows stay. */
  ghost predicate ComesToNothing(t: Tables, op: Op, now: int) {
    ReplyOf(Alone(t, op, now)) == Unchanged && Atomic(t, op, now) == t
  }

  predicate Present(t: Tables, o: nat) {
    o in t.orders && o in t.rows
  }

  predicate Awaiting(s: Stage) {
    s == Assigned || s == Ready
  }

  // ----- the courier's own actions ----------------------------------------------------------

  predicate Ahead(from: Stage, to: Stage) {
    match to
    case PickedUp => from == Assigned || from == Ready
    case OnWay => from == Assigned || from == Ready || from == PickedUp
    case Delivered => from == Assigned || from == Ready || from == PickedUp || from == OnWay
    case _ => false
  }

  predicate MayAdvance(t: Tables, o: nat, target: Stage, caller: Option<nat>) {
    && Present(t, o) && t.rows[o].courier == caller && Ahead(t.rows[o].stage, target)
    && (target == Delivered && caller.Some? ==> caller.value in t.couriers)
  }

  /** A courier moves the order on exactly when the row is still the caller's and the target, one of the
      three a courier may set, lies ahead. The row then stands at the target; picking up and delivering
      stamp their own time and nothing else; only a delivery completes the order. */
  lemma AdvanceComes(t: Tables, o: nat, target: Stage, caller: Option<nat>, now: int)
    requires Present(t, o)
    ensures var order, row := t.orders[o], t.rows[o];
      Comes(t, OpAdvance(o, target, caller), now, MayAdvance(t, o, target, caller),
        if target == Delivered then order.(status := Completed) else order,
        row.(stage := target,
             pickedAt := if target == PickedUp then Some(now) else row.pickedAt,
             deliveredAt := if target == Delivered then Some(now) else row.deliveredAt))
  {
    AdvanceIsForward(t.rows[o].stage, target);
    hide CanAdvance;
    assert t.orders[o := t.orders[o]] == t.orders;
  }

  /** An acceptance stamps the row of its courier while it awaits one and the window is open. */
  lemma AcceptComes(t: Tables, o: nat, caller: Option<nat>, now: int)
    requires Present(t, o)
    ensures var row := t.rows[o];
      Comes(t, OpAccept(o, caller), now,
        row.courier == caller && Awaiting(row.stage) && (row.expiresAt.Some? ==> now <= row.expiresAt.value),
        t.orders[o], row.(acceptedAt := Some(now)))
  {
    assert t.orders[o := t.orders[o]] == t.orders;
  }

  /** A decline takes back the row of its courier while it awaits one, with the reason, cut to 200. */
  lemma DeclineComes(t: Tables, o: nat, why: Text, caller: Option<nat>, now: int)
    requires Present(t, o)
    ensures var row := t.rows[o];
      Comes(t, OpDecline(o, why, caller), now, row.courier == caller && Awaiting(row.stage),
        t.orders[o], row.(stage := Declined, reason := if |why| <= 200 then why else why[..200]))
  {
    assert t.orders[o := t.orders[o]] == t.orders;
  }

  /** Without the order or its row all three are refused. */
  lemma AbsentIsRefused(t: Tables, op: Op, now: int)
    requires (op.OpAccept? || op.OpDecline? || op.OpAdvance?) && !Present(t, op.order)
    ensures Alone(t, op, now).Refuse? && Atomic(t, op, now) == t
  {
  }

  // ----- the kitchen and the till -----------------------------------------------------------

  /** The kitchen signal makes an assigned row of a live order ready, at the order's own time if it has
      one. Anything else it leaves alone. */
  lemma ReadyComes(t: Tables, o: nat, now: int)
    ensures
      if Present(t, o) && !t.orders[o].deleted && t.rows[o].stage == Assigned then
        Comes(t, OpReady(o), now, true, t.orders[o],
          t.rows[o].(stage := Ready, readyAt := if t.orders[o].readyAt.Some? then t.orders[o].readyAt else Some(now)))
      else ComesToNothing(t, OpReady(o), now)
  {
    if o in t.orders { assert t.orders[o := t.orders[o]] == t.orders; }
  }

  /** The acting branch, if there is one, is the order's. */
  predicate InScope(branch: Text, scope: Option<Text>) {
    scope.Some? ==> Strip(scope.value) != [] && Strip(branch) == Strip(scope.value)
  }

  /** A clearing takes an awaiting row back, with its reason; a courier under way or done is not cleared;
      where nothing is assigned there is nothing to do. */
  lemma UnassignComes(t: Tables, o: nat, why: Text, scope: Option<Text>, now: int)
    ensures
      if o !in t.orders || t.orders[o].deleted || !InScope(t.orders[o].branch, scope) then
        Alone(t, OpUnassign(o, why, scope), now).Refuse? && Atomic(t, OpUnassign(o, why, scope), now) == t
      else if o !in t.rows || t.rows[o].stage == Declined then ComesToNothing(t, OpUnassign(o, why, scope), now)
      else
        var said := if why == [] then Lit("Unassigned") else why;
        Comes(t, OpUnassign(o, why, scope), now, Awaiting(t.rows[o].stage), t.orders[o],
          t.rows[o].(stage := Declined, acceptedAt := None, expiresAt := None,
                     reason := if |said| <= 200 then said else said[..200]))
  {
    hide Strip;
    if o in t.orders { assert t.orders[o := t.orders[o]] == t.orders; }
  }

  // ----- assignment -------------------------------------------------------------------------

  /** Order and courier are there and fit each other, and the courier has no other delivery in flight. */
  predicate MayCarry(t: Tables, o: nat, rider: nat, scope: Option<Text>) {
    && o in t.orders && !t.orders[o].deleted && t.orders[o].delivery && t.orders[o].status != Canceled
    && rider in t.couriers && t.couriers[rider].active && !t.couriers[rider].deleted
    && InScope(t.orders[o].branch, scope) && InScope(t.couriers[rider].branch, scope)
    && (t.orders[o].branch == [] || t.couriers[rider].branch == [] || t.orders[o].branch == t.couriers[rider].branch)
    && (forall k | k in t.rows && k != o :: t.rows[k].courier != Some(rider) || t.rows[k].stage == Delivered || t.rows[k].stage == Declined)
  }

  /** The row of an order just assigned at `now`. */
  ghost predicate IsFresh(row: Row, order: Order, op: Op, now: int)
    requires op.OpAssign?
  {
    && row.courier == Some(op.rider) && row.fee == op.fee && row.address == op.address && row.reason == []
    && row.assignedAt == now && row.expiresAt == Some(now + 20)
    && row.acceptedAt.None? && row.pickedAt.None? && row.deliveredAt.None?
    && (if order.status == KitchenReady then
          row.stage == Ready && row.readyAt == if order.readyAt.Some? then order.readyAt else Some(now)
        else row.stage == Assigned && row.readyAt.None?)
  }

  /** An assignment is refused unless courier and order fit. Where the row is already the courier's it
      stays; otherwise the order must not be completed nor its courier under way, and gets a fresh row.
      Either way the order loses its legacy rider and nothing else changes. */
  lemma AssignComes(t: Tables, op: Op, now: int)
    requires op.OpAssign?
    ensures var o, after := op.order, Atomic(t, op, now);
      if !MayCarry(t, o, op.rider, op.scope) then Alone(t, op, now).Refuse? && after == t
      else if o in t.rows && t.rows[o].courier == Some(op.rider) && t.rows[o].stage != Declined then
        ReplyOf(Alone(t, op, now)) == Unchanged
        && after == Tables(t.orders[o := t.orders[o].(legacyRider := None)], t.rows, t.couriers)
      else if t.orders[o].status == Completed || (o in t.rows && !Awaiting(t.rows[o].stage) && t.rows[o].stage != Declined) then
        Alone(t, op, now).Refuse? && after == t
      else
        ReplyOf(Alone(t, op, now)) == Done && o in after.rows && IsFresh(after.rows[o], t.orders[o], op, now)
        && after == Tables(t.orders[o := t.orders[o].(legacyRider := None)], t.rows[o := after.rows[o]], t.couriers)
  {
    hide Strip;
    assert MayCarry(t, op.order, op.rider, op.scope) ==> !BusyElsewhere(t.rows, op.rider, op.order);
  }
}
