/** The rows behind one courier collection, and the fold of the three evidence sources
    (till rows, synced external rows, legacy courier rows) into one total. */
module PaymentRows {
  import opened Common
  import opened Text

  /** base.Order.PaymentMethod: MIXED is the only value that is not a concrete tender. */
  datatype Tender = CASH | UZCARD | HUMO | CARD | PAYME | MIXED | UNLISTED

  predicate Concrete(m: Tender) {
    m != MIXED && m != UNLISTED
  }

  datatype Provider = ByCash | ByCard | ByQr | UnknownProvider

  function TenderOf(p: Provider): Tender {
    match p
    case ByCash => CASH
    case ByCard => UZCARD
    case ByQr => PAYME
    case UnknownProvider => UNLISTED
  }

  datatype Status = Pending | Paid | Refunded | Failed | OtherStatus

  datatype Order = Order(
    branch: Text, total: int, delivery: bool, rider: Option<nat>, uuid: Text,
    isPaid: bool, tender: Option<Tender>, paidAt: Option<int>, accountedAt: Option<int>)

  datatype Till = Till(order: nat, branch: Text, tender: Tender, amount: int, at: int, deleted: bool)

  datatype Ext = Ext(
    order: nat, ofCourier: bool, branch: Text, sourceId: Text, tender: Tender,
    amount: int, at: int, deleted: bool)

  datatype Payment = Payment(
    order: nat, courier: Option<nat>, provider: Provider, amount: int, status: Status,
    key: Text, branch: Text, createdAt: int, paidAt: Option<int>)
  {
    /** The occurrence time of the collection. */
    function At(): int {
      paidAt.GetOr(createdAt)
    }

    /** Statuses that stand for collected money. */
    predicate Collected() {
      status == Paid || status == Refunded
    }
  }

  datatype Source = ProviderRefund | OrderCancel | OtherSource

  /** base.OrderRefund, as far as the courier ledger and its reconciliation read it. */
  datatype Reversal = Reversal(
    source: Source, sourceId: Text, order: nat, amount: int,
    cash: int, drawerCash: int, card: int, payme: int, recordedAt: int, deleted: bool)

  /** The tables; a row's primary key is its position, and rows are only ever appended. */
  datatype Db = Db(
    orders: map<nat, Order>, tills: seq<Till>, exts: seq<Ext>,
    payments: seq<Payment>, refunds: seq<Reversal>)

  /** The database constraints on courier payments: a key is never blank and never shared. */
  ghost predicate Valid(db: Db) {
    && (forall i | 0 <= i < |db.payments| :: db.payments[i].order in db.orders)
    && (forall i | 0 <= i < |db.payments| :: db.payments[i].key != [])
    && UniqueKeys(db.payments)
  }

  ghost predicate UniqueKeys(ps: seq<Payment>) {
    forall i, j | 0 <= i < j < |ps| :: ps[i].key != ps[j].key
  }

  // ----- tallies ---------------------------------------------------------------------------

  /** What a set of rows contributes: exact money, tendered till cash, tenders, latest stamp. */
  datatype Tally = Tally(exact: int, cash: int, tenders: set<Tender>, latest: Option<int>, any: bool) {
    function Plus(that: Tally): Tally {
      Tally(exact + that.exact, cash + that.cash, tenders + that.tenders,
            Later(latest, that.latest), any || that.any)
    }
  }

  function NoRowsTally(): Tally { Tally(0, 0, {}, None, false) }

  function TillRow(r: Till): Tally {
    if r.amount == 0 then Tally(0, 0, {}, None, true)
    else if r.tender == CASH then Tally(0, r.amount, {}, Some(r.at), true)
    else Tally(r.amount, 0, {r.tender}, Some(r.at), true)
  }

  predicate OfTill(r: Till, o: nat) {
    r.order == o && !r.deleted
  }

  function TillTally(rows: seq<Till>, o: nat): Tally {
    if rows == [] then NoRowsTally()
    else
      var rest := TillTally(rows[..|rows| - 1], o);
      var r := rows[|rows| - 1];
      if OfTill(r, o) then rest.Plus(TillRow(r)) else rest
  }

  predicate OfExt(r: Ext, o: nat) {
    r.order == o && r.ofCourier && !r.deleted
  }

  function ExtRow(r: Ext): Tally {
    Tally(r.amount, 0, {r.tender}, Some(r.at), true)
  }

  function ExtTally(rows: seq<Ext>, o: nat): Tally {
    if rows == [] then NoRowsTally()
    else
      var rest := ExtTally(rows[..|rows| - 1], o);
      var r := rows[|rows| - 1];
      if OfExt(r, o) then rest.Plus(ExtRow(r)) else rest
  }

  /** The keys that a synced external row of the order already represents. */
  function Mirrored(rows: seq<Ext>, o: nat): set<Text> {
    set r | r in rows && OfExt(r, o) :: r.sourceId
  }

  predicate OfLegacy(p: Payment, o: nat, mirrored: set<Text>) {
    p.order == o && p.Collected() && p.key !in mirrored
  }

  function LegacyRow(p: Payment): Tally {
    Tally(p.amount, 0, {TenderOf(p.provider)}, Some(p.At()), true)
  }

  function LegacyTally(ps: seq<Payment>, o: nat, mirrored: set<Text>): Tally {
    if ps == [] then NoRowsTally()
    else
      var rest := LegacyTally(ps[..|ps| - 1], o, mirrored);
      var p := ps[|ps| - 1];
      if OfLegacy(p, o, mirrored) then rest.Plus(LegacyRow(p)) else rest
  }

  // ----- the first unreadable row ----------------------------------------------------------

  datatype Unreadable =
    | TillOtherBranch | TillBadTender | TillNegative | NonCashOverTotal
    | ExtOtherBranch | ExtBadTender | ExtNonPositive
    | CourierOtherBranch | CourierBadProvider | CourierNonPositive | ExactOverTotal

  function TillFault(r: Till, branch: Text): Option<Unreadable> {
    if r.branch != branch then Some(TillOtherBranch)
    else if !Concrete(r.tender) then Some(TillBadTender)
    else if r.amount < 0 then Some(TillNegative)
    else None
  }

  function FirstTillFault(rows: seq<Till>, o: nat, branch: Text): Option<Unreadable> {
    if rows == [] then None
    else
      var before := FirstTillFault(rows[..|rows| - 1], o, branch);
      var r := rows[|rows| - 1];
      if before.Some? || !OfTill(r, o) then before else TillFault(r, branch)
  }

  function ExtFault(r: Ext, branch: Text): Option<Unreadable> {
    if r.branch != branch then Some(ExtOtherBranch)
    else if !Concrete(r.tender) then Some(ExtBadTender)
    else if r.amount <= 0 then Some(ExtNonPositive)
    else None
  }

  function FirstExtFault(rows: seq<Ext>, o: nat, branch: Text): Option<Unreadable> {
    if rows == [] then None
    else
      var before := FirstExtFault(rows[..|rows| - 1], o, branch);
      var r := rows[|rows| - 1];
      if before.Some? || !OfExt(r, o) then before else ExtFault(r, branch)
  }

  function LegacyFault(p: Payment, branch: Text): Option<Unreadable> {
    if p.branch != branch then Some(CourierOtherBranch)
    else if !Concrete(TenderOf(p.provider)) then Some(CourierBadProvider)
    else if p.amount <= 0 then Some(CourierNonPositive)
    else None
  }

  function FirstLegacyFault(ps: seq<Payment>, o: nat, mirrored: set<Text>, branch: Text): Option<Unreadable> {
    if ps == [] then None
    else
      var before := FirstLegacyFault(ps[..|ps| - 1], o, mirrored, branch);
      var p := ps[|ps| - 1];
      if before.Some? || !OfLegacy(p, o, mirrored) then before else LegacyFault(p, branch)
  }

  // ----- the settlement evidence of one order ----------------------------------------------

  datatype Evidence = Evidence(due: int, total: int, tenders: set<Tender>, paidAt: Option<int>, hasRows: bool)

  /** What the synced external rows and the unmirrored courier rows hold together. */
  function Collections(db: Db, o: nat): Tally {
    ExtTally(db.exts, o).Plus(LegacyTally(db.payments, o, Mirrored(db.exts, o)))
  }

  /** Money that reached the order outside the cash drawer, each event once. */
  function NonDrawer(db: Db, o: nat): int {
    TillTally(db.tills, o).exact + Collections(db, o).exact
  }

  /** The evidence once every row was readable. */
  function Settled(due: int, till: Tally, collected: Tally): Evidence {
    var exact := till.exact + collected.exact;
    var cash := Min(till.cash, Max(due - exact, 0));
    Evidence(due, exact + cash,
             till.tenders + collected.tenders + (if cash > 0 then {CASH} else {}),
             Later(till.latest, collected.latest),
             till.any || collected.any)
  }

  /** The order in which the fold gives up. */
  function Judge(
    due: int, till: Tally, collected: Tally,
    tillFault: Option<Unreadable>, extFault: Option<Unreadable>, legacyFault: Option<Unreadable>
  ): Result<Evidence, Unreadable> {
    if tillFault.Some? then Err(tillFault.value)
    else if till.exact > due then Err(NonCashOverTotal)
    else if extFault.Some? then Err(extFault.value)
    else if legacyFault.Some? then Err(legacyFault.value)
    else if till.exact + collected.exact > due then Err(ExactOverTotal)
    else Ok(Settled(due, till, collected))
  }

  function PaymentEvidence(db: Db, o: nat): Result<Evidence, Unreadable>
    requires o in db.orders
  {
    var order := db.orders[o];
    var mirrored := Mirrored(db.exts, o);
    Judge(order.total, TillTally(db.tills, o), Collections(db, o),
          FirstTillFault(db.tills, o, order.branch),
          FirstExtFault(db.exts, o, order.branch),
          FirstLegacyFault(db.payments, o, mirrored, order.branch))
  }
}
