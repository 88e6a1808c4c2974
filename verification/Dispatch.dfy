/** The six dispatch transactions, each as one function of the committed tables. */
module Dispatch {
  import opened Common
  import opened Text

  /** The courier-facing view of an order's life. */
  datatype Stage = Assigned | Ready | PickedUp | OnWay | Delivered | Declined

  function Forward(): seq<Stage> { [Assigned, Ready, PickedUp, OnWay, Delivered] }

  function IndexOf(s: Stage, stages: seq<Stage>): Option<nat> {
    if stages == [] then None
    else if stages[0] == s then Some(0)
    else match IndexOf(s, stages[1..]) case None => None case Some(i) => Some(i + 1)
  }

  /** Strictly ahead on the forward line; a stage off the line goes nowhere. */
  predicate CanAdvance(from: Stage, to: Stage) {
    var i, j := IndexOf(from, Forward()), IndexOf(to, Forward());
    i.Some? && j.Some? && j.value > i.value
  }

  predicate CourierMaySet(s: Stage) {
    s == PickedUp || s == OnWay || s == Delivered
  }

  predicate Protected(s: Stage) {
    s == PickedUp || s == OnWay || s == Delivered
  }

  predicate BusyStage(s: Stage) {
    s == Assigned || s == Ready || s == PickedUp || s == OnWay
  }

  datatype OrderStatus = KitchenReady | Completed | Canceled | OtherOrderStatus

  datatype Order = Order(
    branch: Text, delivery: bool, status: OrderStatus, readyAt: Option<int>,
    legacyRider: Option<nat>, deleted: bool)

  /** The one assignment row of an order. */
  datatype Row = Row(
    courier: Option<nat>, stage: Stage, fee: int, assignedAt: int, acceptedAt: Option<int>,
    readyAt: Option<int>, pickedAt: Option<int>, deliveredAt: Option<int>,
    expiresAt: Option<int>, reason: Text, address: Text)

  datatype Courier = Courier(branch: Text, active: bool, online: bool, deleted: bool)

  /** Assignment rows are keyed by their order. */
  datatype Tables = Tables(orders: map<nat, Order>, rows: map<nat, Row>, couriers: map<nat, Courier>)

  function Get<T>(m: map<nat, T>, k: nat): Option<T> {
    if k in m then Some(m[k]) else None
  }

  /** Who asks: `scope` is the acting branch, or None for an unscoped or global actor. */
  datatype Op =
    | OpAssign(order: nat, rider: nat, fee: int, address: Text, scope: Option<Text>)
    | OpUnassign(order: nat, why: Text, scope: Option<Text>)
    | OpAccept(order: nat, expected: Option<nat>)
    | OpDecline(order: nat, why: Text, expected: Option<nat>)
    | OpReady(order: nat)
    | OpAdvance(order: nat, target: Stage, expected: Option<nat>)

  datatype Refusal =
    | NoOrder | NoCourier | Suspended | OutsideBranch | CourierBusy | NotDelivery | OrderCanceled
    | WrongBranch | OrderCompleted | StageProtected | Reassigned | WindowExpired | NotAwaiting
    | NotSettable | IllegalTransition

  datatype Reply = Done | Unchanged | Refused(reason: Refusal)

  /** What a transaction writes; both rows belong to the order it locked. */
  datatype Effect = Write(order: Order, row: Row) | Touch(order: Order) | Nothing | Refuse(reason: Refusal)

  const ACCEPT_WINDOW := 20

  function CutReason(why: Text): Text {
    if |why| > 200 then why[..200] else why
  }

  function ClearReason(why: Text): Text {
    if why == [] then Lit("Unassigned") else why
  }

  // ----- assign -----------------------------------------------------------------------------

  /** The checks made before the courier's other work is looked at. */
  function EarlyRefusal(order: Option<Order>, courier: Option<Courier>, scope: Option<Text>): Option<Refusal> {
    if order.None? || order.value.deleted then Some(NoOrder)
    else if courier.None? then Some(NoCourier)
    else if !courier.value.active || courier.value.deleted then Some(Suspended)
    else if scope.Some? && (Strip(scope.value) == [] || Strip(order.value.branch) != Strip(scope.value)
                            || Strip(courier.value.branch) != Strip(scope.value)) then Some(OutsideBranch)
    else None
  }

  predicate BusyElsewhere(rows: map<nat, Row>, c: nat, o: nat) {
    exists k :: k in rows && k != o && rows[k].courier == Some(c) && BusyStage(rows[k].stage)
  }

  function FreshRow(order: Order, op: Op, now: int): Row
    requires op.OpAssign?
  {
    var ready := order.status == KitchenReady;
    Row(Some(op.rider), if ready then Ready else Assigned, op.fee, now, None,
        if ready then Some(order.readyAt.GetOr(now)) else None, None, None,
        Some(now + ACCEPT_WINDOW), [], op.address)
  }

  predicate StillHis(row: Option<Row>, c: nat) {
    row.Some? && row.value.stage != Declined && row.value.courier == Some(c)
  }

  function AssignEffect(order: Order, row: Option<Row>, courier: Courier, op: Op, now: int): Effect
    requires op.OpAssign?
  {
    if !order.delivery then Refuse(NotDelivery)
    else if order.status == Canceled then Refuse(OrderCanceled)
    else if order.branch != [] && courier.branch != [] && order.branch != courier.branch then Refuse(WrongBranch)
    else if StillHis(row, op.rider) then Touch(order.(legacyRider := None))
    else if order.status == Completed then Refuse(OrderCompleted)
    else if row.Some? && Protected(row.value.stage) then Refuse(StageProtected)
    else Write(order.(legacyRider := None), FreshRow(order, op, now))
  }

  // ----- the other five ---------------------------------------------------------------------

  function UnassignEffect(order: Option<Order>, row: Option<Row>, op: Op): Effect
    requires op.OpUnassign?
  {
    if order.None? || order.value.deleted then Refuse(NoOrder)
    else if op.scope.Some? && (Strip(op.scope.value) == [] || Strip(order.value.branch) != Strip(op.scope.value))
    then Refuse(OutsideBranch)
    else if row.None? || row.value.stage == Declined then Nothing
    else if Protected(row.value.stage) then Refuse(StageProtected)
    else
      Write(order.value, row.value.(stage := Declined, acceptedAt := None, expiresAt := None,
        reason := CutReason(if op.why == [] then Lit("Unassigned") else op.why)))
  }

  function AcceptEffect(order: Option<Order>, row: Option<Row>, op: Op, now: int): Effect
    requires op.OpAccept?
  {
    if order.None? then Refuse(NoOrder)
    else if row.None? || row.value.courier != op.expected then Refuse(Reassigned)
    else if row.value.expiresAt.Some? && now > row.value.expiresAt.value then Refuse(WindowExpired)
    else if row.value.stage != Assigned && row.value.stage != Ready then Refuse(NotAwaiting)
    else Write(order.value, row.value.(acceptedAt := Some(now)))
  }

  function DeclineEffect(order: Option<Order>, row: Option<Row>, op: Op): Effect
    requires op.OpDecline?
  {
    if order.None? then Refuse(NoOrder)
    else if row.None? || row.value.courier != op.expected then Refuse(Reassigned)
    else if row.value.stage != Assigned && row.value.stage != Ready then Refuse(NotAwaiting)
    else Write(order.value, row.value.(stage := Declined, reason := CutReason(op.why)))
  }

  function ReadyEffect(order: Option<Order>, row: Option<Row>, now: int): Effect {
    if order.None? || order.value.deleted then Nothing
    else if row.None? || row.value.stage != Assigned then Nothing
    else Write(order.value, row.value.(stage := Ready, readyAt := Some(order.value.readyAt.GetOr(now))))
  }

  function AdvanceEffect(order: Option<Order>, row: Option<Row>, courier: Option<Courier>, op: Op, now: int): Effect
    requires op.OpAdvance?
  {
    if !CourierMaySet(op.target) then Refuse(NotSettable)
    else if order.None? || row.None? then Refuse(NoOrder)
    else if row.value.courier != op.expected then Refuse(Reassigned)
    else if !CanAdvance(row.value.stage, op.target) then Refuse(IllegalTransition)
    else if op.target == Delivered && row.value.courier.Some? && courier.None? then Refuse(NoCourier)
    else
      match op.target
      case PickedUp => Write(order.value, row.value.(stage := PickedUp, pickedAt := Some(now)))
      case Delivered =>
        Write(order.value.(status := Completed), row.value.(stage := Delivered, deliveredAt := Some(now)))
      case _ => Write(order.value, row.value.(stage := op.target))
  }

  // ----- one transaction --------------------------------------------------------------------

  /** The courier row a transaction locks, if any. */
  function LockedCourier(op: Op, row: Option<Row>): Option<nat> {
    match op
    case OpAssign(_, rider, _, _, _) => Some(rider)
    case OpAdvance(_, target, _) => if target == Delivered && row.Some? then row.value.courier else None
    case _ => None
  }

  /** The effect computed from the rows a transaction has read. */
  function EffectOf(op: Op, order: Option<Order>, row: Option<Row>, courier: Option<Courier>, now: int): Effect {
    match op
    case OpAssign(_, _, _, _, scope) =>
      var early := EarlyRefusal(order, courier, scope);
      if early.Some? then Refuse(early.value) else AssignEffect(order.value, row, courier.value, op, now)
    case OpUnassign(_, _, _) => UnassignEffect(order, row, op)
    case OpAccept(_, _) => AcceptEffect(order, row, op, now)
    case OpDecline(_, _, _) => DeclineEffect(order, row, op)
    case OpReady(_) => ReadyEffect(order, row, now)
    case OpAdvance(_, _, _) => AdvanceEffect(order, row, courier, op, now)
  }

  function ApplyEffect(t: Tables, o: nat, e: Effect): Tables {
    match e
    case Write(order, row) => t.(orders := t.orders[o := order], rows := t.rows[o := row])
    case Touch(order) => t.(orders := t.orders[o := order])
    case Nothing => t
    case Refuse(_) => t
  }

  function ReplyOf(e: Effect): Reply {
    match e
    case Write(_, _) => Done
    case Touch(_) => Unchanged
    case Nothing => Unchanged
    case Refuse(reason) => Refused(reason)
  }

  function CourierRow(t: Tables, c: Option<nat>): Option<Courier> {
    if c.None? then None else Get(t.couriers, c.value)
  }

  /** The effect of a transaction that runs alone. */
  function Alone(t: Tables, op: Op, now: int): Effect {
    var order, row := Get(t.orders, op.order), Get(t.rows, op.order);
    var courier := CourierRow(t, LockedCourier(op, row));
    if op.OpAssign? && EarlyRefusal(order, courier, op.scope).None? && BusyElsewhere(t.rows, op.rider, op.order)
    then Refuse(CourierBusy)
    else EffectOf(op, order, row, courier, now)
  }

  function Atomic(t: Tables, op: Op, now: int): Tables {
    ApplyEffect(t, op.order, Alone(t, op, now))
  }

  // ----- safety of one transaction ----------------------------------------------------------

  /** No courier has two deliveries in flight. */
  ghost predicate Exclusive(rows: map<nat, Row>) {
    forall j, k | j in rows && k in rows && BusyStage(rows[j].stage) && BusyStage(rows[k].stage)
      && rows[j].courier.Some? && rows[j].courier == rows[k].courier :: j == k
  }

  /** What may become of one assignment row. */
  predicate MovesOn(a: Row, b: Row) {
    && (a.stage == Delivered ==> b == a)
    && (a.stage == OnWay ==> (b.stage == OnWay || b.stage == Delivered) && b.courier == a.courier)
    && (a.stage == PickedUp ==> (b.stage == PickedUp || b.stage == OnWay || b.stage == Delivered) && b.courier == a.courier)
  }

  ghost predicate RowsMoveOn(a: map<nat, Row>, b: map<nat, Row>) {
    forall o | o in a :: o in b && MovesOn(a[o], b[o])
  }

  /** Only an assignment makes a courier busy; every other writer keeps or ends a busy row. */
  lemma OnlyAssignMakesBusy(op: Op, order: Option<Order>, row: Option<Row>, courier: Option<Courier>, now: int)
    ensures var e := EffectOf(op, order, row, courier, now);
      (e.Write? && BusyStage(e.row.stage) && !op.OpAssign?) ==>
        row.Some? && BusyStage(row.value.stage) && e.row.courier == row.value.courier
  {
  }

  lemma AssignGivesToRider(op: Op, order: Option<Order>, row: Option<Row>, courier: Option<Courier>, now: int)
    requires op.OpAssign?
    ensures var e := EffectOf(op, order, row, courier, now);
      e.Write? ==> e.row.courier == Some(op.rider) && (e.row.stage == Assigned || e.row.stage == Ready)
  {
  }

  lemma EffectMovesOn(op: Op, order: Option<Order>, row: Option<Row>, courier: Option<Courier>, now: int)
    ensures var e := EffectOf(op, order, row, courier, now);
      e.Write? && row.Some? ==> MovesOn(row.value, e.row)
  {
  }

  /** One transaction keeps couriers exclusive. */
  lemma AtomicKeepsExclusive(t: Tables, op: Op, now: int)
    requires Exclusive(t.rows)
    ensures Exclusive(Atomic(t, op, now).rows)
  {
    var order, row := Get(t.orders, op.order), Get(t.rows, op.order);
    var courier := CourierRow(t, LockedCourier(op, row));
    OnlyAssignMakesBusy(op, order, row, courier, now);
    if op.OpAssign? { AssignGivesToRider(op, order, row, courier, now); }
    hide EffectOf, EarlyRefusal;
    var rows := Atomic(t, op, now).rows;
    forall j, k | j in rows && k in rows && BusyStage(rows[j].stage) && BusyStage(rows[k].stage)
      && rows[j].courier.Some? && rows[j].courier == rows[k].courier
      ensures j == k
    {
      if j != op.order && k != op.order {
        assert rows[j] == t.rows[j] && rows[k] == t.rows[k];
      }
    }
  }

  /** One transaction never takes back a delivered row or a courier under way. */
  lemma AtomicMovesOn(t: Tables, op: Op, now: int)
    ensures RowsMoveOn(t.rows, Atomic(t, op, now).rows)
  {
    var order, row := Get(t.orders, op.order), Get(t.rows, op.order);
    EffectMovesOn(op, order, row, CourierRow(t, LockedCourier(op, row)), now);
    hide EffectOf, EarlyRefusal, BusyElsewhere;
  }

  /** A courier who has lost the order changes nothing. */
  lemma LostCourierRefused(t: Tables, op: Op, now: int)
    requires op.OpAccept? || op.OpDecline? || op.OpAdvance?
    requires op.order in t.rows && t.rows[op.order].courier != op.expected
    ensures Alone(t, op, now).Refuse? && Atomic(t, op, now) == t
  {
  }

  /** The order of stages that couriers move along. */
  lemma AdvanceIsForward(from: Stage, to: Stage)
    ensures CanAdvance(from, to) <==>
      match from
      case Assigned => to == Ready || to == PickedUp || to == OnWay || to == Delivered
      case Ready => to == PickedUp || to == OnWay || to == Delivered
      case PickedUp => to == OnWay || to == Delivered
      case OnWay => to == Delivered
      case Delivered => false
      case Declined => false
  {
    assert forall s :: IndexOf(s, Forward()[4..][1..]) == None;
    assert forall s :: IndexOf(s, Forward()[3..][1..]) == if s == Delivered then Some(0) else None;
  }

  // ----- retries ----------------------------------------------------------------------------

  /** Once an assignment, a clearing or a kitchen signal has written its row, it writes no more. */
  lemma WrittenOnce(op: Op, order: Option<Order>, row: Option<Row>, courier: Option<Courier>, now: int, later: int)
    requires op.OpAssign? || op.OpUnassign? || op.OpReady?
    requires EffectOf(op, order, row, courier, now).Write?
    ensures var e := EffectOf(op, order, row, courier, now);
      !EffectOf(op, Some(e.order), Some(e.row), courier, later).Write?
  {
    hide Strip;
  }

  lemma NotWrittenLater(op: Op, order: Option<Order>, row: Option<Row>, courier: Option<Courier>, now: int, later: int)
    requires op.OpAssign? || op.OpUnassign? || op.OpReady?
    requires !EffectOf(op, order, row, courier, now).Write?
    ensures var e := EffectOf(op, order, row, courier, now);
      !EffectOf(op, if e.Touch? then Some(e.order) else order, row, courier, later).Write?
  {
    hide Strip;
  }

  /** At-least-once delivery of an assignment, a clearing or a kitchen signal is harmless: repeating it
      rewinds no stage and replaces no stamp. */
  lemma RetryChangesNoRow(t: Tables, op: Op, now: int, later: int)
    requires op.OpAssign? || op.OpUnassign? || op.OpReady?
    ensures Atomic(Atomic(t, op, now), op, later).rows == Atomic(t, op, now).rows
  {
    hide EffectOf, EarlyRefusal;
    var order, row := Get(t.orders, op.order), Get(t.rows, op.order);
    var courier := CourierRow(t, LockedCourier(op, row));
    if EffectOf(op, order, row, courier, now).Write? {
      WrittenOnce(op, order, row, courier, now, later);
    } else {
      NotWrittenLater(op, order, row, courier, now, later);
    }
  }

  /** A fresh assignment can be accepted by its courier for exactly the accept window. */
  lemma AcceptWindow(t: Tables, op: Op, now: int, later: int)
    requires op.OpAssign? && Alone(t, op, now).Write?
    ensures var t' := Atomic(t, op, now);
      ReplyOf(Alone(t', OpAccept(op.order, Some(op.rider)), later))
      == if later <= now + ACCEPT_WINDOW then Done else Refused(WindowExpired)
  {
    hide EarlyRefusal, BusyElsewhere;
  }
}
