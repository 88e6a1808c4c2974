/** The coalescing capture queue, shared by requesters and one worker. */
module CaptureQueue {
  import opened Common

  type Reason = nat

  /** An order's ticket, or a full sweep. */
  datatype Ticket = OrderTicket(id: nat, reason: Reason) | SweepTicket(reason: Reason)

  datatype Capture = Capture(id: nat, reason: Reason)

  /** The queue, the pending map, the ticket the worker has taken but not yet popped from the map,
      and the captures started so far. */
  datatype State = State(
    queue: seq<Ticket>, pending: map<nat, Reason>, held: Option<Ticket>, started: seq<Capture>)

  /** What one thread does without being interrupted: a request and a pop hold the pending lock, a get
      is atomic in the queue itself. */
  datatype Action =
    | Request(id: nat, reason: Reason)
    | RequestSweep(reason: Reason)
    | Get
    | Pop
    | Sweep

  predicate Enabled(s: State, a: Action) {
    match a
    case Get => s.held.None? && s.queue != []
    case Pop => s.held.Some? && s.held.value.OrderTicket?
    case Sweep => s.held.Some? && s.held.value.SweepTicket?
    case _ => true
  }

  function Next(s: State, a: Action): State
    requires Enabled(s, a)
  {
    match a
    case Request(id, reason) =>
      if id in s.pending then s.(pending := s.pending[id := reason])
      else s.(pending := s.pending[id := reason], queue := s.queue + [OrderTicket(id, reason)])
    case RequestSweep(reason) => s.(queue := s.queue + [SweepTicket(reason)])
    case Get => s.(held := Some(s.queue[0]), queue := s.queue[1..])
    case Pop =>
      var t := s.held.value;
      var reason := if t.id in s.pending then s.pending[t.id] else t.reason;
      s.(held := None, pending := s.pending - {t.id}, started := s.started + [Capture(t.id, reason)])
    case Sweep => s.(held := None)
  }

  /** Tickets that still stand for a capture, in the order they will be served. */
  function Unpopped(s: State): seq<Ticket> {
    (if s.held.Some? then [s.held.value] else []) + s.queue
  }

  predicate IsFor(t: Ticket, id: nat) {
    t.OrderTicket? && t.id == id
  }

  function CountFor(ts: seq<Ticket>, id: nat): nat {
    if ts == [] then 0 else (if IsFor(ts[0], id) then 1 else 0) + CountFor(ts[1..], id)
  }

  /** An order is pending exactly when one ticket of it is queued or held, never more. */
  ghost predicate Inv(s: State) {
    forall id: nat :: CountFor(Unpopped(s), id) == if id in s.pending then 1 else 0
  }

  lemma {:induction false} CountAppend(ts: seq<Ticket>, t: Ticket, id: nat)
    ensures CountFor(ts + [t], id) == CountFor(ts, id) + if IsFor(t, id) then 1 else 0
  {
    if ts != [] {
      assert (ts + [t])[1..] == ts[1..] + [t];
      CountAppend(ts[1..], t, id);
    }
  }

  /** What each action does to the tickets in line. */
  lemma LineMoves(s: State, a: Action)
    requires Enabled(s, a)
    ensures var u, u' := Unpopped(s), Unpopped(Next(s, a));
      match a
      case Request(id, reason) => u' == if id in s.pending then u else u + [OrderTicket(id, reason)]
      case RequestSweep(reason) => u' == u + [SweepTicket(reason)]
      case Get => u' == u
      case Pop => u != [] && u[0] == s.held.value && u' == u[1..]
      case Sweep => u != [] && u[0] == s.held.value && u' == u[1..]
  {
  }

  lemma StepKeeps(s: State, a: Action)
    requires Inv(s) && Enabled(s, a)
    ensures Inv(Next(s, a))
  {
    LineMoves(s, a);
    var u := Unpopped(s);
    forall id: nat ensures CountFor(Unpopped(Next(s, a)), id) == if id in Next(s, a).pending then 1 else 0 {
      match a {
        case Request(k, reason) => CountAppend(u, OrderTicket(k, reason), id);
        case RequestSweep(reason) => CountAppend(u, SweepTicket(reason), id);
        case Get =>
        case Pop => assert CountFor(u, u[0].id) >= 1;
        case Sweep =>
      }
    }
  }

  ghost predicate IsRun(run: seq<State>, acts: seq<Action>) {
    && |run| == |acts| + 1
    && run[0] == State([], map[], None, [])
    && forall i | 0 <= i < |acts| :: Enabled(run[i], acts[i]) && run[i + 1] == Next(run[i], acts[i])
  }

  /** In every interleaving, an order is in the pending map exactly when it has one unpopped ticket. */
  lemma {:induction false} OneTicketEach(run: seq<State>, acts: seq<Action>, i: nat)
    requires IsRun(run, acts) && i < |run|
    ensures Inv(run[i])
  {
    hide Inv;
    if i > 0 {
      OneTicketEach(run, acts, i - 1);
      StepKeeps(run[i - 1], acts[i - 1]);
    } else {
      NothingQueued();
    }
  }

  lemma NothingQueued()
    ensures Inv(State([], map[], None, []))
  {
  }

  // ----- every request is served ------------------------------------------------------------

  predicate Captured(s: State, from: nat, id: nat) {
    exists k :: from <= k < |s.started| && s.started[k].id == id
  }

  /** The reason of the latest request for an order among actions `i..j`. */
  function LatestReason(acts: seq<Action>, id: nat, i: nat, j: nat): Option<Reason>
    requires i <= j <= |acts|
    decreases j
  {
    if j == i then None
    else if acts[j - 1].Request? && acts[j - 1].id == id then Some(acts[j - 1].reason)
    else LatestReason(acts, id, i, j - 1)
  }

  lemma StartedGrows(s: State, a: Action, from: nat, id: nat)
    requires Enabled(s, a) && from <= |s.started|
    ensures s.started <= Next(s, a).started
    ensures Captured(s, from, id) ==> Captured(Next(s, a), from, id)
    ensures a.Pop? && s.held.value.id == id ==> Captured(Next(s, a), from, id)
  {
    var s' := Next(s, a);
    if Captured(s, from, id) {
      var k :| from <= k < |s.started| && s.started[k].id == id;
      assert s'.started[k].id == id;
    } else if a.Pop? {
      assert s'.started[|s.started|].id == s.held.value.id;
    }
  }

  /** After a request, at every later moment: a capture of the order has started since, or the order is
      still pending, with the reason of its latest request. */
  lemma {:induction false} RequestIsNotLost(run: seq<State>, acts: seq<Action>, i: nat, j: nat)
    requires IsRun(run, acts) && i < j < |run| && acts[i].Request?
    ensures var id := acts[i].id;
      || Captured(run[j], |run[i].started|, id)
      || (id in run[j].pending && Some(run[j].pending[id]) == LatestReason(acts, id, i, j))
    ensures |run[i].started| <= |run[j].started|
    decreases j
  {
    var id := acts[i].id;
    if j == i + 1 {
      assert run[j] == Next(run[i], acts[i]);
    } else {
      RequestIsNotLost(run, acts, i, j - 1);
      var s, a := run[j - 1], acts[j - 1];
      assert Enabled(s, a) && run[j] == Next(s, a);
      StartedGrows(s, a, |run[i].started|, id);
    }
  }

  function PlaceOf(ts: seq<Ticket>, id: nat): nat {
    if ts == [] || IsFor(ts[0], id) then 0 else 1 + PlaceOf(ts[1..], id)
  }

  lemma {:induction false} PlaceAppend(ts: seq<Ticket>, t: Ticket, id: nat)
    requires CountFor(ts, id) > 0
    ensures PlaceOf(ts + [t], id) == PlaceOf(ts, id)
  {
    if !IsFor(ts[0], id) {
      assert (ts + [t])[1..] == ts[1..] + [t];
      PlaceAppend(ts[1..], t, id);
    }
  }

  /** How many tickets the worker has finished among actions `i..j`. */
  function Served(acts: seq<Action>, i: nat, j: nat): nat
    requires i <= j <= |acts|
    decreases j
  {
    if j == i then 0 else Served(acts, i, j - 1) + if acts[j - 1].Pop? || acts[j - 1].Sweep? then 1 else 0
  }

  lemma OneStepNearer(s: State, a: Action, id: nat)
    requires Inv(s) && Enabled(s, a) && id in s.pending
    requires !(a.Pop? && s.held.value.id == id)
    ensures id in Next(s, a).pending
    ensures PlaceOf(Unpopped(Next(s, a)), id) + (if a.Pop? || a.Sweep? then 1 else 0) == PlaceOf(Unpopped(s), id)
  {
    LineMoves(s, a);
    var u := Unpopped(s);
    assert CountFor(u, id) == 1;
    match a
    case Request(k, reason) => PlaceAppend(u, OrderTicket(k, reason), id);
    case RequestSweep(reason) => PlaceAppend(u, SweepTicket(reason), id);
    case _ =>
  }

  lemma {:induction false} StartedSoFar(run: seq<State>, acts: seq<Action>, i: nat, j: nat)
    requires IsRun(run, acts) && i <= j < |run|
    ensures |run[i].started| <= |run[j].started|
    decreases j
  {
    if i < j {
      StartedSoFar(run, acts, i, j - 1);
      assert Enabled(run[j - 1], acts[j - 1]) && run[j] == Next(run[j - 1], acts[j - 1]);
    }
  }

  /** Tickets are served in order: a pending order is captured before the worker finishes more tickets
      than stood before it. */
  lemma {:induction false} ServedInTurn(run: seq<State>, acts: seq<Action>, id: nat, i: nat, j: nat)
    requires IsRun(run, acts) && i <= j < |run| && id in run[i].pending
    requires !Captured(run[j], |run[i].started|, id)
    ensures id in run[j].pending
    ensures Served(acts, i, j) + PlaceOf(Unpopped(run[j]), id) == PlaceOf(Unpopped(run[i]), id)
    decreases j
  {
    hide Inv;
    if i < j {
      var s, a := run[j - 1], acts[j - 1];
      assert Enabled(s, a) && run[j] == Next(s, a);
      StartedSoFar(run, acts, i, j - 1);
      StartedGrows(s, a, |run[i].started|, id);
      ServedInTurn(run, acts, id, i, j - 1);
      OneTicketEach(run, acts, j - 1);
      OneStepNearer(s, a, id);
    }
  }

  // ----- the shared queue -------------------------------------------------------------------

  class Queue {
    var queue: seq<Ticket>
    var pending: map<nat, Reason>
    var held: Option<Ticket>
    var started: seq<Capture>

    constructor ()
      ensures Value() == State([], map[], None, [])
    {
      queue, pending, held, started := [], map[], None, [];
    }

    function Value(): State
      reads this
    {
      State(queue, pending, held, started)
    }

    /** Coalesce while queued; once popped, a later request queues the order again. */
    method RequestCapture(id: nat, reason: Reason)
      modifies this
      ensures Value() == Next(old(Value()), Request(id, reason))
    {
      if id in pending {
        pending := pending[id := reason];
        return;
      }
      pending := pending[id := reason];
      queue := queue + [OrderTicket(id, reason)];
    }

    method RequestFullSweep(reason: Reason)
      modifies this
      ensures Value() == Next(old(Value()), RequestSweep(reason))
    {
      queue := queue + [SweepTicket(reason)];
    }

    /** One turn of the worker: take a ticket, pop its order, start its capture. */
    method WorkOnce()
      requires held.None? && queue != []
      modifies this
      ensures Value() == (var taken := Next(old(Value()), Get);
                          Next(taken, if taken.held.value.OrderTicket? then Pop else Sweep))
    {
      var t := queue[0];
      queue := queue[1..];
      match t {
        case SweepTicket(_) =>
        case OrderTicket(id, asked) =>
          var reason := asked;
          if id in pending {
            reason := pending[id];
          }
          pending := pending - {id};
          started := started + [Capture(id, reason)];
      }
    }
  }
}
