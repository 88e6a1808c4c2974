/** Conservation of a courier's money over whole runs of work and settlements. */
module SettlementRuns {
  import opened Common
  import opened Text
  import opened PaymentRows
  import opened SettlementRows
  import opened SettlementTheorems
  import opened SettlementMeaning

  // ----- runs -------------------------------------------------------------------------------

  datatype Event =
    | Work(at: int)
    | Close(courier: nat, now: int, midnight: int, bonuses: int, tips: int)
  {
    function Clock(): int {
      if Work? then at else now
    }
  }

  /** Every stamp of courier `c` was read before `now`. */
  ghost predicate StampedBy(books: Books, c: nat, now: int) {
    && (forall p | p in books.payments && Counted(p, c) :: p.paidAt.value <= now)
    && (forall d | d in books.deliveries && d.courier == Some(c) && Done(d) :: d.deliveredAt.value <= now)
  }

  /** Work carries stamps no earlier than the clock; a settlement reads the clock under the locks
      that every stamped row was written under. */
  ghost predicate IsStep(a: Books, b: Books, clock: int, ev: Event) {
    && clock <= ev.Clock()
    && match ev
       case Work(at) => Advances(a, b, at)
       case Close(c, now, midnight, bonuses, tips) =>
         midnight <= now && StampedBy(a, c, now) && b == Settle(a, c, now, midnight, bonuses, tips)
  }

  ghost predicate IsRun(run: seq<Books>, clock: int, evs: seq<Event>) {
    && |run| == |evs| + 1
    && Sound(run[0]) && run[0].settlements == []
    && forall i | 0 <= i < |evs| :: IsStep(run[i], run[i + 1], ClockAt(clock, evs, i), evs[i])
  }

  function ClockAt(clock: int, evs: seq<Event>, i: nat): int
    requires i <= |evs|
  {
    if i == 0 then clock else evs[i - 1].Clock()
  }

  // ----- one courier's settlements ----------------------------------------------------------

  function Mine(ss: seq<Settlement>, c: nat): seq<Settlement> {
    if ss == [] then []
    else if ss[|ss| - 1].courier == c then Mine(ss[..|ss| - 1], c) + [ss[|ss| - 1]]
    else Mine(ss[..|ss| - 1], c)
  }

  /** Consecutive windows, each starting where the previous one ended. */
  ghost predicate Abut(m: seq<Settlement>, clock: int) {
    && (forall k | 0 <= k < |m| :: m[k].start <= m[k].end <= clock)
    && (forall k | 0 < k < |m| :: m[k].start == m[k - 1].end)
  }

  ghost predicate NothingBefore(books: Books, c: nat, t: int) {
    && (forall p | p in books.payments && Counted(p, c) :: t <= p.paidAt.value)
    && (forall d | d in books.deliveries && d.courier == Some(c) && Done(d) :: t <= d.deliveredAt.value)
    && (forall r | r in books.reversals && Attributed(books, c, r) != NoShare() :: t <= r.recordedAt)
  }

  /** Each row is still the reconciliation of its own window, and pays fees, bonuses and tips. */
  ghost predicate Frozen(books: Books, c: nat, m: seq<Settlement>) {
    forall k | 0 <= k < |m| ::
      && m[k].sums == Snapshot(books, c, m[k].start, m[k].end)
      && m[k].payout == m[k].sums.fees + m[k].bonuses + m[k].tips
  }

  ghost predicate Inv(books: Books, c: nat, clock: int) {
    var m := Mine(books.settlements, c);
    && Sound(books)
    && Abut(m, clock)
    && Frozen(books, c, m)
    && (m != [] ==> NothingBefore(books, c, m[0].start))
  }

  // ----- work keeps what was frozen ---------------------------------------------------------

  lemma NothingBeforeStable(a: Books, b: Books, c: nat, t: int, at: int)
    requires Advances(a, b, at) && NothingBefore(a, c, t) && t <= at
    ensures NothingBefore(b, c, t)
  {
    hide Attributed, Sound;
    forall p | p in b.payments && Counted(p, c) ensures t <= p.paidAt.value {
      var i :| 0 <= i < |b.payments| && b.payments[i] == p;
      if i < |a.payments| && Counted(a.payments[i], c) {
        assert a.payments[i] in a.payments;
      }
    }
    forall d | d in b.deliveries && d.courier == Some(c) && Done(d) ensures t <= d.deliveredAt.value {
      var i :| 0 <= i < |b.deliveries| && b.deliveries[i] == d;
      if i < |a.deliveries| && Done(a.deliveries[i]) {
        assert a.deliveries[i] in a.deliveries;
      }
    }
    forall r | r in b.reversals && Attributed(b, c, r) != NoShare() ensures t <= r.recordedAt {
      if r.recordedAt < at {
        OldRefundStays(a, b, r, at);
        AttributedStable(a, b, c, r, at);
      }
    }
  }

  lemma WorkKeeps(a: Books, b: Books, c: nat, clock: int, at: int)
    requires Inv(a, c, clock) && clock <= at && Advances(a, b, at)
    ensures Inv(b, c, at)
  {
    hide Sound, Snapshot, NothingBefore, Mine, PaymentsAdvance, DeliveriesAdvance, ReversalsAdvance;
    var m := Mine(a.settlements, c);
    forall k | 0 <= k < |m| ensures m[k].sums == Snapshot(b, c, m[k].start, m[k].end) {
      SnapshotStable(a, b, c, m[k].start, m[k].end, at);
    }
    if m != [] {
      NothingBeforeStable(a, b, c, m[0].start, at);
    }
  }

  // ----- settling ---------------------------------------------------------------------------

  lemma {:induction false} FirstPayIsFirst(ps: seq<Payment>, c: nat)
    ensures var f := FirstPay(ps, c);
      && (f.None? ==> forall p | p in ps :: !Counted(p, c))
      && (f.Some? ==> (&& (forall p | p in ps && Counted(p, c) :: f.value <= p.paidAt.value)
                       && exists p :: p in ps && Counted(p, c) && p.paidAt == f))
  {
    if ps != [] {
      FirstPayIsFirst(ps[..|ps| - 1], c);
      assert ps == ps[..|ps| - 1] + [ps[|ps| - 1]];
    }
  }

  lemma {:induction false} FirstDeliveryIsFirst(ds: seq<Delivery>, c: nat)
    ensures var f := FirstDelivery(ds, c);
      && (f.None? ==> forall d | d in ds :: !(d.courier == Some(c) && Done(d)))
      && (f.Some? ==> (&& (forall d | d in ds && d.courier == Some(c) && Done(d) :: f.value <= d.deliveredAt.value)
                       && exists d :: d in ds && d.courier == Some(c) && Done(d) && d.deliveredAt == f))
  {
    if ds != [] {
      FirstDeliveryIsFirst(ds[..|ds| - 1], c);
      assert ds == ds[..|ds| - 1] + [ds[|ds| - 1]];
    }
  }

  lemma {:induction false} SomethingEarly(ps: seq<Payment>, rs: seq<Reversal>, c: nat, r: Reversal, via: Provider, n: nat)
    requires n <= |ps| && EarlyOutstanding(ps, rs, c, r, via, n) != 0
    ensures exists p :: p in ps && Counted(p, c) && p.paidAt.value <= r.recordedAt
  {
    hide Remaining;
    if n > 0 && EarlyOutstanding(ps, rs, c, r, via, n - 1) != 0 {
      SomethingEarly(ps, rs, c, r, via, n - 1);
    } else {
      assert ps[n - 1] in ps;
    }
  }

  /** A bucket from which a cancellation takes anything held early money, or froze less than nothing. */
  lemma TakenIsEarly(books: Books, c: nat, r: Reversal, via: Provider)
    requires Sound(books) && r in books.reversals && r.source == OrderCancel && !r.deleted
    requires Min(FrozenBucket(r, via), Outstanding(books, c, r, via, |books.payments|)) > 0
    ensures exists p :: p in books.payments && Counted(p, c) && p.paidAt.value <= r.recordedAt
  {
    hide Sound, LateIsSpent, Outstanding;
    SoundIsSpent(books, c, r);
    CancelIsEarly(books, c, r, via);
    SomethingEarly(books.payments, books.reversals, c, r, via, |books.payments|);
  }

  /** A refund only takes from a courier who collected before it. */
  lemma AttributedFollowsPayment(books: Books, c: nat, r: Reversal)
    requires Sound(books) && r in books.reversals && Attributed(books, c, r) != NoShare()
    ensures exists p :: p in books.payments && Counted(p, c) && p.paidAt.value <= r.recordedAt
  {
    hide Outstanding, PaymentByKey, Sound, Attributed;
    AttributedIsRaw(books, c, r);
    if r.source == ProviderRefund {
      ByKeyFinds(books.payments, c, r.sourceId);
      var p := PaymentByKey(books.payments, c, r.sourceId).value;
      assert Reverses(r, p);
      ProviderFollows(books, c, r, p);
    } else {
      var share := CancelShare(books, c, r);
      var via := if share.cash > 0 then ByCash else if share.card > 0 then ByCard else ByQr;
      TakenIsEarly(books, c, r, via);
    }
  }

  lemma ProviderFollows(books: Books, c: nat, r: Reversal, p: Payment)
    requires Sound(books) && r in books.reversals && p in books.payments && Counted(p, c)
    requires Reverses(r, p) && r.source == ProviderRefund
    ensures p.paidAt.value <= r.recordedAt
  {
    assert Follows(books.payments, books.reversals, c, r, p);
  }

  /** Before its first settlement, a courier's open window starts before every event. */
  lemma FirstWindowCoversAll(books: Books, c: nat, midnight: int)
    requires Sound(books) && LastEnd(books.settlements, c).None?
    ensures NothingBefore(books, c, UnsettledStart(books, c, midnight))
  {
    hide Attributed, Sound;
    FirstPayIsFirst(books.payments, c);
    FirstDeliveryIsFirst(books.deliveries, c);
    var start := UnsettledStart(books, c, midnight);
    forall r | r in books.reversals && Attributed(books, c, r) != NoShare() ensures start <= r.recordedAt {
      AttributedFollowsPayment(books, c, r);
    }
  }

  /** ... and ends no later than the settlement that closes it. */
  lemma FirstWindowIsPast(books: Books, c: nat, now: int, midnight: int)
    requires LastEnd(books.settlements, c).None? && midnight <= now && StampedBy(books, c, now)
    ensures UnsettledStart(books, c, midnight) <= now
  {
    FirstPayIsFirst(books.payments, c);
    FirstDeliveryIsFirst(books.deliveries, c);
  }

  lemma {:induction false} LastEndIsLast(ss: seq<Settlement>, c: nat, clock: int)
    requires Abut(Mine(ss, c), clock)
    ensures var m := Mine(ss, c);
      LastEnd(ss, c) == if m == [] then None else Some(m[|m| - 1].end)
  {
    if ss != [] {
      var rest := Mine(ss[..|ss| - 1], c);
      var m := Mine(ss, c);
      assert Abut(rest, clock) by {
        assert forall k | 0 <= k < |rest| :: rest[k] == m[k];
      }
      LastEndIsLast(ss[..|ss| - 1], c, clock);
      hide Abut;
      if ss[|ss| - 1].courier == c {
        EndsRise(m, clock);
        assert rest != [] ==> rest[|rest| - 1] == m[|m| - 2];
      } else {
        assert m == rest;
      }
    }
  }

  lemma EndsRise(m: seq<Settlement>, clock: int)
    requires Abut(m, clock)
    ensures |m| >= 2 ==> m[|m| - 2].end <= m[|m| - 1].end
  {
  }

  lemma MineAppend(ss: seq<Settlement>, s: Settlement, c: nat)
    ensures Mine(ss + [s], c) == if s.courier == c then Mine(ss, c) + [s] else Mine(ss, c)
  {
    assert (ss + [s])[..|ss|] == ss;
  }

  lemma SnapshotIgnoresSettlements(a: Books, b: Books, c: nat, start: int, end: int)
    requires b == a.(settlements := b.settlements)
    ensures Snapshot(b, c, start, end) == Snapshot(a, c, start, end)
  {
    RefundsIgnoreSettlements(a, b, c, start, end, |a.reversals|);
    hide RefundSums;
  }

  lemma {:induction false} RefundsIgnoreSettlements(a: Books, b: Books, c: nat, start: int, end: int, n: nat)
    requires b == a.(settlements := b.settlements) && n <= |a.reversals|
    ensures RefundSums(b, c, start, end, n) == RefundSums(a, c, start, end, n)
  {
    hide Attributed;
    if n > 0 {
      RefundsIgnoreSettlements(a, b, c, start, end, n - 1);
      AttributedIgnoresSettlements(a, b, c, a.reversals[n - 1]);
    }
  }

  lemma {:induction false} OutstandingIgnoresSettlements(a: Books, b: Books, c: nat, r: Reversal, via: Provider, n: nat)
    requires b == a.(settlements := b.settlements) && n <= |a.payments|
    ensures Outstanding(b, c, r, via, n) == Outstanding(a, c, r, via, n)
  {
    hide Remaining;
    if n > 0 { OutstandingIgnoresSettlements(a, b, c, r, via, n - 1); }
  }

  lemma AttributedIgnoresSettlements(a: Books, b: Books, c: nat, r: Reversal)
    requires b == a.(settlements := b.settlements)
    ensures Attributed(b, c, r) == Attributed(a, c, r)
  {
    hide Outstanding;
    OutstandingIgnoresSettlements(a, b, c, r, ByCash, |a.payments|);
    OutstandingIgnoresSettlements(a, b, c, r, ByCard, |a.payments|);
    OutstandingIgnoresSettlements(a, b, c, r, ByQr, |a.payments|);
  }

  lemma NothingBeforeIgnoresSettlements(a: Books, b: Books, c: nat, t: int)
    requires b == a.(settlements := b.settlements) && NothingBefore(a, c, t)
    ensures NothingBefore(b, c, t)
  {
    hide Attributed;
    forall r | r in b.reversals && Attributed(b, c, r) != NoShare() ensures t <= r.recordedAt {
      AttributedIgnoresSettlements(a, b, c, r);
    }
  }

  lemma SoundIgnoresSettlements(a: Books, b: Books)
    requires b == a.(settlements := b.settlements) && Sound(a)
    ensures Sound(b)
  {
  }

  /** The window a settlement closes starts where the last one ended, or before everything. */
  lemma NextWindow(a: Books, c: nat, clock: int, now: int, midnight: int)
    requires Inv(a, c, clock) && clock <= now && midnight <= now && StampedBy(a, c, now)
    ensures var m, start := Mine(a.settlements, c), UnsettledStart(a, c, midnight);
      && start <= now
      && (m != [] ==> start == m[|m| - 1].end)
      && (m == [] ==> NothingBefore(a, c, start))
  {
    hide Sound, Snapshot, NothingBefore;
    LastEndIsLast(a.settlements, c, clock);
    if Mine(a.settlements, c) == [] {
      FirstWindowCoversAll(a, c, midnight);
      FirstWindowIsPast(a, c, now, midnight);
    }
  }

  lemma CloseKeeps(a: Books, b: Books, c: nat, clock: int, ev: Event)
    requires Inv(a, c, clock) && ev.Close? && IsStep(a, b, clock, ev)
    ensures Inv(b, c, ev.now)
  {
    hide Sound, Snapshot, NothingBefore, UnsettledStart, Mine, StampedBy, Counted, Advances;
    var m := Mine(a.settlements, c);
    var s := b.settlements[|a.settlements|];
    assert b.settlements == a.settlements + [s];
    MineAppend(a.settlements, s, c);
    SoundIgnoresSettlements(a, b);
    var m' := Mine(b.settlements, c);
    if ev.courier == c {
      NextWindow(a, c, clock, ev.now, ev.midnight);
    }
    forall k | 0 <= k < |m'| ensures m'[k].sums == Snapshot(b, c, m'[k].start, m'[k].end) {
      SnapshotIgnoresSettlements(a, b, c, m'[k].start, m'[k].end);
    }
    if m' != [] {
      NothingBeforeIgnoresSettlements(a, b, c, m'[0].start);
    }
  }

  lemma StepKeepsInv(a: Books, b: Books, c: nat, clock: int, ev: Event)
    requires Inv(a, c, clock) && IsStep(a, b, clock, ev)
    ensures Inv(b, c, ev.Clock())
  {
    hide Inv, Advances, Settle, StampedBy;
    if ev.Work? {
      WorkKeeps(a, b, c, clock, ev.at);
    } else {
      CloseKeeps(a, b, c, clock, ev);
    }
  }

  lemma StartHasInv(books: Books, c: nat, clock: int)
    requires Sound(books) && books.settlements == []
    ensures Inv(books, c, clock)
  {
    hide Sound, Snapshot, NothingBefore;
  }

  lemma {:induction false} RunKeepsInv(run: seq<Books>, clock: int, evs: seq<Event>, c: nat, i: nat)
    requires IsRun(run, clock, evs) && i < |run|
    ensures Inv(run[i], c, ClockAt(clock, evs, i))
  {
    hide Inv, IsStep, Sound;
    if i > 0 {
      RunKeepsInv(run, clock, evs, c, i - 1);
      StepKeepsInv(run[i - 1], run[i], c, ClockAt(clock, evs, i - 1), evs[i - 1]);
    } else {
      StartHasInv(run[0], c, clock);
    }
  }

  // ----- conservation -----------------------------------------------------------------------

  function Total(m: seq<Settlement>): Sums {
    if m == [] then NoSums() else Total(m[..|m| - 1]).Plus(m[|m| - 1].sums)
  }

  lemma {:induction false} WindowsTile(books: Books, c: nat, m: seq<Settlement>, clock: int)
    requires m != [] && Abut(m, clock) && Frozen(books, c, m)
    ensures m[0].start <= m[|m| - 1].end
    ensures Total(m) == Snapshot(books, c, m[0].start, m[|m| - 1].end)
  {
    hide Snapshot;
    var n := |m| - 1;
    if n > 0 {
      assert forall k | 0 <= k < n :: m[..n][k] == m[k];
      WindowsTile(books, c, m[..n], clock);
      WindowsAddUp(books, c, m[0].start, m[n].start, m[n].end);
    } else {
      assert m[..n] == [];
    }
  }

  lemma {:induction false} NoPayBefore(books: Books, c: nat, lo: int, t: int, n: nat)
    requires NothingBefore(books, c, t) && n <= |books.payments|
    ensures PaySums(books.payments, c, lo, t, n) == NoSums()
  {
    hide Attributed;
    if n > 0 {
      NoPayBefore(books, c, lo, t, n - 1);
      assert books.payments[n - 1] in books.payments;
    }
  }

  lemma {:induction false} NoDeliveryBefore(books: Books, c: nat, lo: int, t: int, n: nat)
    requires NothingBefore(books, c, t) && n <= |books.deliveries|
    ensures DeliverySums(books.deliveries, c, lo, t, n) == NoSums()
  {
    hide Attributed;
    if n > 0 {
      NoDeliveryBefore(books, c, lo, t, n - 1);
      assert books.deliveries[n - 1] in books.deliveries;
    }
  }

  lemma {:induction false} NoRefundBefore(books: Books, c: nat, lo: int, t: int, n: nat)
    requires NothingBefore(books, c, t) && n <= |books.reversals|
    ensures RefundSums(books, c, lo, t, n) == NoSums()
  {
    hide Attributed;
    if n > 0 {
      NoRefundBefore(books, c, lo, t, n - 1);
      assert books.reversals[n - 1] in books.reversals;
    }
  }

  lemma EmptyBefore(books: Books, c: nat, lo: int, t: int)
    requires NothingBefore(books, c, t)
    ensures Snapshot(books, c, lo, t) == NoSums()
  {
    NoPayBefore(books, c, lo, t, |books.payments|);
    NoDeliveryBefore(books, c, lo, t, |books.deliveries|);
    NoRefundBefore(books, c, lo, t, |books.reversals|);
    hide PaySums, DeliverySums, RefundSums, NothingBefore;
  }

  /** Where the first window of a courier starts: with the first settlement, or with the open window. */
  function LedgerStart(books: Books, c: nat, midnight: int): int {
    var m := Mine(books.settlements, c);
    if m == [] then UnsettledStart(books, c, midnight) else m[0].start
  }

  lemma OpenWindow(books: Books, c: nat, clock: int, midnight: int)
    requires Inv(books, c, clock)
    ensures var m := Mine(books.settlements, c);
      && NothingBefore(books, c, LedgerStart(books, c, midnight))
      && (m != [] ==> UnsettledStart(books, c, midnight) == m[|m| - 1].end)
  {
    hide Sound, NothingBefore, Frozen;
    LastEndIsLast(books.settlements, c, clock);
    if Mine(books.settlements, c) == [] {
      FirstWindowCoversAll(books, c, midnight);
    }
  }

  /** The settled windows add up to everything before the open one. */
  lemma SettledAddUp(books: Books, c: nat, clock: int, midnight: int, lo: int)
    requires Inv(books, c, clock) && lo <= LedgerStart(books, c, midnight)
    ensures var open := UnsettledStart(books, c, midnight);
      lo <= open && Total(Mine(books.settlements, c)) == Snapshot(books, c, lo, open)
  {
    OpenWindow(books, c, clock, midnight);
    hide Sound, Snapshot, Mine, NothingBefore, UnsettledStart;
    var m := Mine(books.settlements, c);
    EmptyBefore(books, c, lo, LedgerStart(books, c, midnight));
    if m != [] {
      WindowsTile(books, c, m, clock);
      WindowsAddUp(books, c, lo, m[0].start, m[|m| - 1].end);
    }
  }

  /** Conservation: at every point of every run, for every courier, settled yet or not, the
      settlement rows abut, each row still equals the reconciliation of its own window, and all rows
      plus the open window add up to the courier's whole ledger - collected tender less attributed
      refunds, and fees - however far back it is read and whichever later moment closes the open
      window. */
  lemma SettlementsConserve(run: seq<Books>, clock: int, evs: seq<Event>, c: nat, i: nat, midnight: int, lo: int, hi: int)
    requires IsRun(run, clock, evs) && i < |run|
    requires lo <= LedgerStart(run[i], c, midnight) && UnsettledStart(run[i], c, midnight) <= hi
    ensures var m, open := Mine(run[i].settlements, c), UnsettledStart(run[i], c, midnight);
      && Abut(m, ClockAt(clock, evs, i))
      && Frozen(run[i], c, m)
      && (m != [] ==> open == m[|m| - 1].end)
      && Total(m).Plus(Snapshot(run[i], c, open, hi)) == Snapshot(run[i], c, lo, hi)
      && Reconciles(run[i], c, lo, hi, Total(m).Plus(Snapshot(run[i], c, open, hi)))
      && (forall k | 0 <= k < |m| :: Reconciles(run[i], c, m[k].start, m[k].end, m[k].sums))
  {
    RunKeepsInv(run, clock, evs, c, i);
    SnapshotReconciles(run[i], c, lo, hi);
    RowsReconcile(run[i], c, Mine(run[i].settlements, c));
    hide Sound, Snapshot, Mine, Reconciles, IsRun, NothingBefore, UnsettledStart, LedgerStart, Frozen, Abut;
    OpenWindow(run[i], c, ClockAt(clock, evs, i), midnight);
    SettledAddUp(run[i], c, ClockAt(clock, evs, i), midnight, lo);
    WindowsAddUp(run[i], c, lo, UnsettledStart(run[i], c, midnight), hi);
  }

  lemma RowsReconcile(books: Books, c: nat, m: seq<Settlement>)
    ensures Frozen(books, c, m) ==> forall k | 0 <= k < |m| :: Reconciles(books, c, m[k].start, m[k].end, m[k].sums)
  {
    if Frozen(books, c, m) {
      forall k | 0 <= k < |m| ensures Reconciles(books, c, m[k].start, m[k].end, m[k].sums) {
        SnapshotReconciles(books, c, m[k].start, m[k].end);
      }
    }
    hide Snapshot, Reconciles;
  }

  /** The window index that holds a stamp. */
  lemma {:induction false} ExactlyOneWindow(m: seq<Settlement>, clock: int, t: int)
    requires m != [] && Abut(m, clock) && m[0].start <= t < m[|m| - 1].end
    ensures exists k :: 0 <= k < |m| && In(t, m[k].start, m[k].end)
    ensures forall j, k | 0 <= j < k < |m| && In(t, m[j].start, m[j].end) :: !In(t, m[k].start, m[k].end)
  {
    var n := |m| - 1;
    WindowsRise(m, clock);
    if n > 0 && t < m[n].start {
      assert forall k | 0 <= k < n :: m[..n][k] == m[k];
      ExactlyOneWindow(m[..n], clock, t);
      var k :| 0 <= k < n && In(t, m[..n][k].start, m[..n][k].end);
      assert In(t, m[k].start, m[k].end);
    } else {
      assert In(t, m[n].start, m[n].end);
    }
  }

  lemma {:induction false} WindowsRise(m: seq<Settlement>, clock: int)
    requires Abut(m, clock)
    ensures forall j, k | 0 <= j < k < |m| :: m[j].end <= m[k].start
  {
    if m != [] {
      var n := |m| - 1;
      assert forall k | 0 <= k < n :: m[..n][k] == m[k];
      WindowsRise(m[..n], clock);
      forall j, k | 0 <= j < k < |m| ensures m[j].end <= m[k].start {
        if k == n && j < n - 1 {
          assert m[..n][j].end <= m[..n][n - 1].start;
        }
      }
    }
  }
}
