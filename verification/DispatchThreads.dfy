/** Dispatch transactions interleaved statement by statement, under row locks held to commit. */
module DispatchThreads {
  import opened Common
  import opened Text
  import opened Dispatch

  /** How far a transaction has come, with the rows it has read so far. */
  datatype Phase =
    | Waiting
    | HasOrder(order: Option<Order>)
    | HasRow(order: Option<Order>, row: Option<Row>)
    | HasCourier(order: Option<Order>, row: Option<Row>, courier: Option<Courier>)
    | Cleared(order: Option<Order>, row: Option<Row>, courier: Option<Courier>)
    | Finished(reply: Reply)

  datatype Thread = Thread(op: Op, phase: Phase)

  /** The committed tables, the running transactions, and who holds which row lock. */
  datatype State = State(
    tables: Tables, threads: map<nat, Thread>, orderLocks: map<nat, nat>, courierLocks: map<nat, nat>)

  datatype Action =
    | Begin(thread: nat, op: Op)
    | LockOrder(thread: nat)
    | ReadRow(thread: nat)
    | LockCourier(thread: nat)
    | CheckBusy(thread: nat)
    | Commit(thread: nat, now: int)
    | Elsewhere(tables: Tables)

  function Move(s: State, t: nat, phase: Phase): State
    requires t in s.threads
  {
    s.(threads := s.threads[t := s.threads[t].(phase := phase)])
  }

  function Released(locks: map<nat, nat>, t: nat): map<nat, nat> {
    map k | k in locks && locks[k] != t :: locks[k]
  }

  function Finish(s: State, t: nat, reply: Reply): State
    requires t in s.threads
  {
    Move(s, t, Finished(reply)).(orderLocks := Released(s.orderLocks, t), courierLocks := Released(s.courierLocks, t))
  }

  /** A transaction may write once it holds every lock it needs and has made every check. */
  predicate MayCommit(th: Thread) {
    || (th.phase.HasRow? && LockedCourier(th.op, th.phase.row).None?)
    || (th.phase.HasCourier? && !th.op.OpAssign?)
    || th.phase.Cleared?
  }

  /** The effect computed from what the thread read, not from the committed tables. */
  function Intent(th: Thread, now: int): Effect
    requires MayCommit(th)
  {
    EffectOf(th.op, th.phase.order, th.phase.row, if th.phase.HasRow? then None else th.phase.courier, now)
  }

  /** The rest of the system changes order headers and courier rows that nobody has locked. */
  ghost predicate Outside(s: State, after: Tables) {
    && after.rows == s.tables.rows
    && (forall o | o in s.orderLocks :: Get(after.orders, o) == Get(s.tables.orders, o))
    && (forall c | c in s.courierLocks :: Get(after.couriers, c) == Get(s.tables.couriers, c))
  }

  ghost predicate Enabled(s: State, a: Action) {
    match a
    case Begin(t, _) => t !in s.threads || s.threads[t].phase.Finished?
    case LockOrder(t) =>
      t in s.threads && s.threads[t].phase.Waiting? && s.threads[t].op.order !in s.orderLocks
    case ReadRow(t) => t in s.threads && s.threads[t].phase.HasOrder?
    case LockCourier(t) =>
      t in s.threads && s.threads[t].phase.HasRow?
        && var c := LockedCourier(s.threads[t].op, s.threads[t].phase.row); c.Some? && c.value !in s.courierLocks
    case CheckBusy(t) => t in s.threads && s.threads[t].phase.HasCourier? && s.threads[t].op.OpAssign?
    case Commit(t, _) => t in s.threads && MayCommit(s.threads[t])
    case Elsewhere(after) => Outside(s, after)
  }

  function Next(s: State, a: Action): State
    requires Enabled(s, a)
  {
    match a
    case Begin(t, op) => s.(threads := s.threads[t := Thread(op, Waiting)])
    case LockOrder(t) =>
      var o := s.threads[t].op.order;
      Move(s, t, HasOrder(Get(s.tables.orders, o))).(orderLocks := s.orderLocks[o := t])
    case ReadRow(t) =>
      var th := s.threads[t];
      Move(s, t, HasRow(th.phase.order, Get(s.tables.rows, th.op.order)))
    case LockCourier(t) =>
      var th := s.threads[t];
      var c := LockedCourier(th.op, th.phase.row).value;
      Move(s, t, HasCourier(th.phase.order, th.phase.row, Get(s.tables.couriers, c)))
        .(courierLocks := s.courierLocks[c := t])
    case CheckBusy(t) =>
      var th := s.threads[t];
      var early := EarlyRefusal(th.phase.order, th.phase.courier, th.op.scope);
      if early.Some? then Finish(s, t, Refused(early.value))
      else if BusyElsewhere(s.tables.rows, th.op.rider, th.op.order) then Finish(s, t, Refused(CourierBusy))
      else Move(s, t, Cleared(th.phase.order, th.phase.row, th.phase.courier))
    case Commit(t, now) =>
      var e := Intent(s.threads[t], now);
      Finish(s.(tables := ApplyEffect(s.tables, s.threads[t].op.order, e)), t, ReplyOf(e))
    case Elsewhere(after) => s.(tables := after)
  }

  // ----- what a thread in mid-flight knows --------------------------------------------------

  predicate OrderFresh(s: State, t: nat, op: Op, order: Option<Order>) {
    op.order in s.orderLocks && s.orderLocks[op.order] == t && order == Get(s.tables.orders, op.order)
  }

  predicate RowFresh(s: State, op: Op, row: Option<Row>) {
    row == Get(s.tables.rows, op.order)
  }

  predicate CourierFresh(s: State, t: nat, op: Op, row: Option<Row>, courier: Option<Courier>) {
    var c := LockedCourier(op, row);
    c.Some? && c.value in s.courierLocks && s.courierLocks[c.value] == t && courier == Get(s.tables.couriers, c.value)
  }

  predicate IsFree(s: State, op: Op, order: Option<Order>, courier: Option<Courier>) {
    && op.OpAssign?
    && EarlyRefusal(order, courier, op.scope).None?
    && !BusyElsewhere(s.tables.rows, op.rider, op.order)
  }

  /** Everything a thread has read under its locks is still what is committed. */
  predicate Informed(s: State, t: nat, th: Thread) {
    match th.phase
    case Waiting => true
    case HasOrder(order) => OrderFresh(s, t, th.op, order)
    case HasRow(order, row) => OrderFresh(s, t, th.op, order) && RowFresh(s, th.op, row)
    case HasCourier(order, row, courier) =>
      OrderFresh(s, t, th.op, order) && RowFresh(s, th.op, row) && CourierFresh(s, t, th.op, row, courier)
    case Cleared(order, row, courier) =>
      && OrderFresh(s, t, th.op, order) && RowFresh(s, th.op, row) && CourierFresh(s, t, th.op, row, courier)
      && IsFree(s, th.op, order, courier)
    case Finished(_) => true
  }

  ghost predicate AllInformed(s: State) {
    forall t | t in s.threads :: Informed(s, t, s.threads[t])
  }

  // ----- a commit is the atomic transaction -------------------------------------------------

  /** A transaction that commits does to the committed tables exactly what it would have done
      running alone at that instant. */
  lemma CommitIsAtomic(s: State, t: nat, now: int)
    requires AllInformed(s) && Enabled(s, Commit(t, now))
    ensures Intent(s.threads[t], now) == Alone(s.tables, s.threads[t].op, now)
    ensures Next(s, Commit(t, now)).tables == Atomic(s.tables, s.threads[t].op, now)
  {
    assert Informed(s, t, s.threads[t]);
    hide EffectOf, EarlyRefusal, BusyElsewhere, AllInformed;
  }

  /** A transaction turned away at the busy check would also have been turned away running alone. */
  lemma TurnedAwayIsAtomic(s: State, t: nat, now: int)
    requires AllInformed(s) && Enabled(s, CheckBusy(t))
    requires Next(s, CheckBusy(t)).threads[t].phase.Finished?
    ensures Next(s, CheckBusy(t)).threads[t].phase.reply == ReplyOf(Alone(s.tables, s.threads[t].op, now))
    ensures Next(s, CheckBusy(t)).tables == Atomic(s.tables, s.threads[t].op, now) == s.tables
  {
    assert Informed(s, t, s.threads[t]);
    hide AssignEffect, EarlyRefusal, BusyElsewhere, AllInformed;
  }

  // ----- others keep what a thread knows ----------------------------------------------------

  /** Locks of `u` survive whatever `t` does. */
  lemma OthersStayInformed(s: State, s': State, u: nat, th: Thread)
    requires Informed(s, u, th)
    requires forall o | o in s.orderLocks && s.orderLocks[o] == u ::
      && o in s'.orderLocks && s'.orderLocks[o] == u
      && Get(s'.tables.orders, o) == Get(s.tables.orders, o) && Get(s'.tables.rows, o) == Get(s.tables.rows, o)
    requires forall c | c in s.courierLocks && s.courierLocks[c] == u ::
      && c in s'.courierLocks && s'.courierLocks[c] == u
      && Get(s'.tables.couriers, c) == Get(s.tables.couriers, c)
      && forall o :: BusyElsewhere(s'.tables.rows, c, o) ==> BusyElsewhere(s.tables.rows, c, o)
    ensures Informed(s', u, th)
  {
    hide EarlyRefusal, BusyElsewhere;
  }

  predicate SomeoneElse(locks: map<nat, nat>, k: nat, u: nat, t: nat) {
    k in locks && locks[k] == u && u != t
  }

  /** A commit can only make a courier busy whose lock the committing thread holds. */
  lemma CommitMakesNoOneElseBusy(s: State, t: nat, now: int, c: nat, u: nat, o: nat)
    requires AllInformed(s) && Enabled(s, Commit(t, now)) && SomeoneElse(s.courierLocks, c, u, t)
    requires BusyElsewhere(Next(s, Commit(t, now)).tables.rows, c, o)
    ensures BusyElsewhere(s.tables.rows, c, o)
  {
    var th := s.threads[t];
    assert Informed(s, t, th);
    var rows := Next(s, Commit(t, now)).tables.rows;
    var k :| k in rows && k != o && rows[k].courier == Some(c) && BusyStage(rows[k].stage);
    var courier := if th.phase.HasRow? then None else th.phase.courier;
    OnlyAssignMakesBusy(th.op, th.phase.order, th.phase.row, courier, now);
    if th.op.OpAssign? { AssignGivesToRider(th.op, th.phase.order, th.phase.row, courier, now); }
    hide EffectOf, AllInformed, EarlyRefusal;
    assert k in s.tables.rows && s.tables.rows[k].courier == Some(c) && BusyStage(s.tables.rows[k].stage);
  }

  lemma CommitKeepsOthers(s: State, t: nat, now: int, u: nat)
    requires AllInformed(s) && Enabled(s, Commit(t, now)) && u in s.threads && u != t
    ensures var s' := Next(s, Commit(t, now)); Informed(s', u, s'.threads[u])
  {
    var s' := Next(s, Commit(t, now));
    assert Informed(s, t, s.threads[t]) && Informed(s, u, s.threads[u]);
    forall c, o | c in s.courierLocks && s.courierLocks[c] == u && BusyElsewhere(s'.tables.rows, c, o)
      ensures BusyElsewhere(s.tables.rows, c, o)
    {
      CommitMakesNoOneElseBusy(s, t, now, c, u, o);
    }
    hide EffectOf, BusyElsewhere, AllInformed, EarlyRefusal;
    OthersStayInformed(s, s', u, s.threads[u]);
  }

  lemma QuietKeepsOthers(s: State, a: Action, u: nat)
    requires AllInformed(s) && Enabled(s, a) && !a.Commit? && u in s.threads
    requires a.Elsewhere? || a.thread != u
    ensures var s' := Next(s, a); u in s'.threads && Informed(s', u, s'.threads[u])
  {
    var s' := Next(s, a);
    assert Informed(s, u, s.threads[u]);
    hide BusyElsewhere, AllInformed, EarlyRefusal;
    OthersStayInformed(s, s', u, s.threads[u]);
  }

  lemma OwnStepInforms(s: State, a: Action)
    requires AllInformed(s) && Enabled(s, a) && !a.Elsewhere?
    ensures var s' := Next(s, a); a.thread in s'.threads && Informed(s', a.thread, s'.threads[a.thread])
  {
    if !a.Begin? {
      assert Informed(s, a.thread, s.threads[a.thread]);
    }
    hide BusyElsewhere, AllInformed, EarlyRefusal, EffectOf;
  }

  lemma StepKeepsInformed(s: State, a: Action)
    requires AllInformed(s) && Enabled(s, a)
    ensures AllInformed(Next(s, a))
  {
    var s' := Next(s, a);
    hide Informed, Enabled;
    forall u | u in s'.threads ensures Informed(s', u, s'.threads[u]) {
      if !a.Elsewhere? && u == a.thread {
        OwnStepInforms(s, a);
      } else {
        Untouched(s, a, u);
        if a.Commit? {
          CommitKeepsOthers(s, a.thread, a.now, u);
        } else {
          QuietKeepsOthers(s, a, u);
        }
      }
    }
  }

  lemma Untouched(s: State, a: Action, u: nat)
    requires Enabled(s, a) && u in Next(s, a).threads && (a.Elsewhere? || a.thread != u)
    ensures u in s.threads
  {
    hide EffectOf, EarlyRefusal, BusyElsewhere;
  }

  // ----- every interleaving -----------------------------------------------------------------

  ghost predicate IsRun(run: seq<State>, acts: seq<Action>) {
    && |run| == |acts| + 1
    && run[0].threads == map[] && run[0].orderLocks == map[] && run[0].courierLocks == map[]
    && forall i | 0 <= i < |acts| :: Enabled(run[i], acts[i]) && run[i + 1] == Next(run[i], acts[i])
  }

  /** Any step leaves the committed assignment rows alone or is one whole transaction. */
  lemma StepIsAtomic(s: State, a: Action)
    requires AllInformed(s) && Enabled(s, a)
    ensures Next(s, a).tables.rows == s.tables.rows
         || (a.Commit? && Next(s, a).tables == Atomic(s.tables, s.threads[a.thread].op, a.now))
  {
    if a.Commit? {
      CommitIsAtomic(s, a.thread, a.now);
    } else {
      hide EarlyRefusal, BusyElsewhere;
    }
  }

  lemma StepIsSafe(s: State, a: Action)
    requires AllInformed(s) && Enabled(s, a) && Exclusive(s.tables.rows)
    ensures Exclusive(Next(s, a).tables.rows) && RowsMoveOn(s.tables.rows, Next(s, a).tables.rows)
  {
    StepIsAtomic(s, a);
    hide AllInformed, Enabled, Exclusive, RowsMoveOn, Atomic;
    if a.Commit? {
      var op := CommittedOp(s, a);
      AtomicKeepsExclusive(s.tables, op, a.now);
      AtomicMovesOn(s.tables, op, a.now);
    }
    RowsMoveOnSelf(s.tables.rows);
  }

  function CommittedOp(s: State, a: Action): Op
    requires Enabled(s, a) && a.Commit?
  {
    s.threads[a.thread].op
  }

  lemma RowsMoveOnSelf(rows: map<nat, Row>)
    ensures RowsMoveOn(rows, rows)
  {
  }

  lemma RowsMoveOnTransitive(a: map<nat, Row>, b: map<nat, Row>, c: map<nat, Row>)
    requires RowsMoveOn(a, b) && RowsMoveOn(b, c)
    ensures RowsMoveOn(a, c)
  {
  }

  lemma {:induction false} RunIsSafe(run: seq<State>, acts: seq<Action>, i: nat)
    requires IsRun(run, acts) && i < |run| && Exclusive(run[0].tables.rows)
    ensures AllInformed(run[i]) && Exclusive(run[i].tables.rows)
  {
    hide Exclusive, Enabled;
    if i > 0 {
      RunIsSafe(run, acts, i - 1);
      assert run[i] == Next(run[i - 1], acts[i - 1]);
      hide AllInformed, Next;
      StepKeepsInformed(run[i - 1], acts[i - 1]);
      StepIsSafe(run[i - 1], acts[i - 1]);
    }
  }

  /** In every interleaving of the six transactions, at every moment, no courier has two deliveries
      in flight; and between any two moments, delivered rows are frozen and a courier under way
      only moves forward with the same order. */
  lemma {:induction false} DispatchIsSafe(run: seq<State>, acts: seq<Action>, i: nat, j: nat)
    requires IsRun(run, acts) && i <= j < |run| && Exclusive(run[0].tables.rows)
    ensures Exclusive(run[j].tables.rows)
    ensures RowsMoveOn(run[i].tables.rows, run[j].tables.rows)
    decreases j
  {
    hide Exclusive, Enabled, RowsMoveOn, AllInformed, Next;
    RunIsSafe(run, acts, j);
    if i < j {
      DispatchIsSafe(run, acts, i, j - 1);
      RunIsSafe(run, acts, j - 1);
      assert run[j] == Next(run[j - 1], acts[j - 1]);
      StepIsSafe(run[j - 1], acts[j - 1]);
      RowsMoveOnTransitive(run[i].tables.rows, run[j - 1].tables.rows, run[j].tables.rows);
    } else {
      RowsMoveOnSelf(run[i].tables.rows);
    }
  }

  /** However stale the caller's view was, an accept, decline or advance by a courier who no longer
      owns the row when the transaction commits is refused and writes nothing. */
  lemma LostCourierRefusedAnywhere(run: seq<State>, acts: seq<Action>, i: nat)
    requires IsRun(run, acts) && i < |acts| && acts[i].Commit? && Exclusive(run[0].tables.rows)
    requires Enabled(run[i], acts[i])
    requires var op := CommittedOp(run[i], acts[i]);
      && (op.OpAccept? || op.OpDecline? || op.OpAdvance?)
      && op.order in run[i].tables.rows && run[i].tables.rows[op.order].courier != op.expected
    ensures run[i + 1].tables == run[i].tables
    ensures run[i + 1].threads[acts[i].thread].phase.Finished? && run[i + 1].threads[acts[i].thread].phase.reply.Refused?
  {
    RunIsSafe(run, acts, i);
    CommitIsAtomic(run[i], acts[i].thread, acts[i].now);
    LostCourierRefused(run[i].tables, CommittedOp(run[i], acts[i]), acts[i].now);
    assert run[i + 1] == Next(run[i], acts[i]);
    hide AllInformed, EffectOf, Exclusive;
  }

  // ----- no deadlock ------------------------------------------------------------------------

  /** A lock is only held by a transaction that has taken it and not yet finished. */
  ghost predicate LocksOwned(s: State) {
    && (forall o | o in s.orderLocks ::
          var t := s.orderLocks[o];
          t in s.threads && !s.threads[t].phase.Waiting? && !s.threads[t].phase.Finished?)
    && (forall c | c in s.courierLocks ::
          var t := s.courierLocks[c];
          t in s.threads && (s.threads[t].phase.HasCourier? || s.threads[t].phase.Cleared?))
  }

  lemma StepKeepsLocksOwned(s: State, a: Action)
    requires LocksOwned(s) && Enabled(s, a)
    ensures LocksOwned(Next(s, a))
  {
    hide EffectOf, EarlyRefusal, BusyElsewhere, LockedCourier, Outside;
  }

  lemma {:induction false} RunKeepsLocksOwned(run: seq<State>, acts: seq<Action>, i: nat)
    requires IsRun(run, acts) && i < |run|
    ensures LocksOwned(run[i])
  {
    hide LocksOwned, Enabled, Next;
    if i > 0 {
      RunKeepsLocksOwned(run, acts, i - 1);
      StepKeepsLocksOwned(run[i - 1], acts[i - 1]);
    } else {
      NoLocksAtStart(run[0]);
    }
  }

  lemma NoLocksAtStart(s: State)
    requires s.orderLocks == map[] && s.courierLocks == map[]
    ensures LocksOwned(s)
  {
  }

  predicate Unfinished(s: State, t: nat) {
    t in s.threads && !s.threads[t].phase.Finished?
  }

  /** The step that a transaction takes next. */
  function NextAction(th: Thread, t: nat, now: int): Action {
    match th.phase
    case Waiting => LockOrder(t)
    case HasOrder(_) => ReadRow(t)
    case HasRow(_, row) => if LockedCourier(th.op, row).Some? then LockCourier(t) else Commit(t, now)
    case HasCourier(_, _, _) => if th.op.OpAssign? then CheckBusy(t) else Commit(t, now)
    case _ => Commit(t, now)
  }

  /** Whoever holds the lock that a waiting transaction wants. */
  function Blocker(s: State, t: nat): nat
    requires t in s.threads
  {
    var th := s.threads[t];
    if th.phase.Waiting? && th.op.order in s.orderLocks then s.orderLocks[th.op.order]
    else if th.phase.HasRow? && LockedCourier(th.op, th.phase.row).Some?
            && LockedCourier(th.op, th.phase.row).value in s.courierLocks
    then s.courierLocks[LockedCourier(th.op, th.phase.row).value]
    else t
  }

  lemma StuckHasBlocker(s: State, t: nat, now: int)
    requires LocksOwned(s) && Unfinished(s, t)
    ensures var b := Blocker(s, t);
      && Unfinished(s, b)
      && (!Enabled(s, NextAction(s.threads[t], t, now)) ==> b != t && !s.threads[b].phase.Waiting?)
      && (!Enabled(s, NextAction(s.threads[t], t, now)) && !s.threads[t].phase.Waiting? ==>
            s.threads[b].phase.HasCourier? || s.threads[b].phase.Cleared?)
  {
    hide LockedCourier;
  }

  /** Orders are locked before couriers, so in every state some unfinished transaction can move: the
      one that waits, the one it waits for, or the one that one waits for. */
  lemma SomeoneCanMove(run: seq<State>, acts: seq<Action>, i: nat, t: nat, now: int)
    requires IsRun(run, acts) && i < |run| && Unfinished(run[i], t)
    ensures exists u :: Unfinished(run[i], u) && Enabled(run[i], NextAction(run[i].threads[u], u, now))
  {
    var s := run[i];
    RunKeepsLocksOwned(run, acts, i);
    hide IsRun, LocksOwned;
    StuckHasBlocker(s, t, now);
    var b := Blocker(s, t);
    StuckHasBlocker(s, b, now);
    var d := Blocker(s, b);
    StuckHasBlocker(s, d, now);
    hide Enabled, NextAction;
    if !Enabled(s, NextAction(s.threads[t], t, now)) && !Enabled(s, NextAction(s.threads[b], b, now)) {
      CanMoveOn(s, d, now);
    }
  }

  lemma CanMoveOn(s: State, t: nat, now: int)
    requires t in s.threads && (s.threads[t].phase.HasCourier? || s.threads[t].phase.Cleared?)
    ensures Enabled(s, NextAction(s.threads[t], t, now))
  {
  }
}
