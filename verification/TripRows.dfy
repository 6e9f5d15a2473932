/** The rows the trip lifecycle works on, and what one command decides to do with them.

    Everything here is a value: `TripProtocol` interleaves these decisions between transactions,
    and `TripRecord` performs them field by field on a mutable row. */
module TripRows {

  datatype Option<+T> = None | Some(value: T)

  type TripId = nat
  type DriverId = nat
  type UserId = nat
  type ProcId = nat
  type Time = nat

  /** `NoStatus` is a row whose status column is null. */
  datatype Status = NoStatus | Requested | Accepted | Reached | InProgress | Completed | Cancelled

  datatype Canceller = Nobody | ByRider | ByDriver | BySystem

  datatype PaymentMethod = CashMethod | WalletMethod | DeferredMethod

  datatype CashPayment = NoCash | CashPending | CashPaid | CashFailed

  /** One row of the trip table. `payments`, `refunds` and `cashSettlements` count the committed
      executions of payment creation, the refund step and the cash settlement; `creator` is the
      booking call that inserted the row. */
  datatype Trip = Trip(
    rider: UserId,
    requestKey: Option<string>,
    creator: ProcId,
    paymentMethod: PaymentMethod,
    driver: Option<DriverId>,
    status: Status,
    otp: Option<string>,
    acceptedAt: Option<Time>,
    reachedAt: Option<Time>,
    startedAt: Option<Time>,
    completedAt: Option<Time>,
    cancelledAt: Option<Time>,
    cancelledBy: Canceller,
    paid: bool,
    cash: CashPayment,
    payments: nat,
    refunds: nat,
    cashSettlements: nat)

  datatype DriverStatus = Online | Off | Blocked

  /** `mayOperate` is approval, or what stands in for it for a test driver; `lockedUntil` ends a lockout.
      `overCap` is no column: it is what the driver's sessions come to, read without a lock. */
  datatype Driver = Driver(
    status: DriverStatus,
    mayOperate: bool,
    hasVehicle: bool,
    lockedUntil: Time,
    overCap: bool,
    totalTrips: nat)

  /** The statuses in which a driver is committed to a trip. */
  predicate Active(s: Status) {
    s == Accepted || s == Reached || s == InProgress
  }

  predicate Terminal(s: Status) {
    s == Completed || s == Cancelled
  }

  /** A trip a driver may still take. */
  predicate Open(row: Trip) {
    row.driver.None? && (row.status == NoStatus || row.status == Requested)
  }

  /** When a finished trip finished. */
  function EndOf(row: Trip): Option<Time> {
    if row.completedAt.Some? then row.completedAt else row.cancelledAt
  }

  // ---- Transitions -------------------------------------------------------------------------

  /** The transition table of the update command. */
  predicate Allowed(current: Status, target: Status) {
    match target
    case Reached => current == Accepted
    case InProgress => current == Accepted || current == Reached
    case Completed => current == InProgress
    case Cancelled => current == Requested || Active(current)
    case _ => false
  }

  /** One durable status change: an update, an accept, or the timeout of an open trip. */
  predicate Edge(a: Status, b: Status) {
    || Allowed(a, b)
    || ((a == NoStatus || a == Requested) && (b == Accepted || b == Cancelled))
  }

  /** The statuses a row may hold after holding `a`: see ReachIsClosure. */
  predicate Reach(a: Status, b: Status) {
    || a == b
    || (!Terminal(a) && Terminal(b))
    || ((a == NoStatus || a == Requested) && Active(b))
    || (a == Accepted && (b == Reached || b == InProgress))
    || (a == Reached && b == InProgress)
  }

  /** Reach is the reflexive, transitive closure of Edge: it is closed under one more step at the
      front, and every pair in it is either trivial or starts with a step. */
  lemma ReachIsClosure(a: Status, c: Status)
    ensures Reach(a, c) <==> a == c || exists b :: Edge(a, b) && Reach(b, c)
  {
    if Reach(a, c) && a != c {
      var b := if a == NoStatus || a == Requested then (if c == Cancelled then Cancelled else Accepted)
      else if c == Cancelled then Cancelled
      else if a == InProgress then Completed
      else if a == Accepted && c == Reached then Reached
      else InProgress;
      assert Edge(a, b) && Reach(b, c);
    }
  }

  lemma ReachTransitive(a: Status, b: Status, c: Status)
    requires Reach(a, b) && Reach(b, c)
    ensures Reach(a, c)
  {
  }

  // ---- What a command decides ----------------------------------------------------------------

  datatype Reason =
    | NotADriver
    | TripTaken
    | NotAssignedDriver
    | OtpRequired
    | NotAuthorisedToCancel
    | InvalidTransition
    | TripAlreadyCompleted
    | InvalidOtp
    | DriverAlreadyOnTrip
    | Plain

  /** The answer a command gets. `Plain` is a refusal, or an exception, without a reason code;
      `NoAnswer` is a command whose reply was lost on the way out. */
  datatype Answer =
    | Committed(status: Status)
    | AlreadyDone(status: Status)
    | Rejected(reason: Reason)
    | NoAnswer
    | StoodDown
    | Booked(trip: TripId, reused: bool)
    | NoTrip
    | Toggled(ok: bool)

  datatype Verdict = Refuse(answer: Answer) | Proceed

  /** How the stored code compares as text: a null column prints as "None". */
  function OtpText(otp: Option<string>): string {
    if otp.Some? then otp.value else "None"
  }

  /** The checks of an update, made on the locked row. */
  function Decide(row: Trip, target: Status, otp: string): Verdict {
    if !Allowed(row.status, target) then
      Refuse(if row.status == target then AlreadyDone(target) else Rejected(InvalidTransition))
    else if target == Cancelled && Terminal(row.status) then
      Refuse(if row.status == Cancelled then AlreadyDone(Cancelled) else Rejected(TripAlreadyCompleted))
    else if target == InProgress && OtpText(row.otp) != otp then
      Refuse(Rejected(InvalidOtp))
    else
      Proceed
  }

  /** The second check for a finished trip comes too late to ever answer: the table has answered before. */
  lemma SecondCheckIsDead(row: Trip, target: Status, otp: string)
    ensures Decide(row, target, otp) != Refuse(Rejected(TripAlreadyCompleted))
    ensures row.status == Completed ==> Decide(row, Cancelled, otp) == Refuse(Rejected(InvalidTransition))
  {
  }

  /** The row an update writes. */
  function AdvanceRow(row: Trip, target: Status, who: Canceller, at: Time): Trip {
    match target
    case Reached => row.(status := Reached, reachedAt := Some(at))
    case InProgress => row.(status := InProgress, startedAt := Some(at))
    case Completed => row.(
      status := Completed,
      completedAt := Some(at),
      payments := row.payments + 1,
      paid := row.paid || row.paymentMethod == WalletMethod,
      cash := if row.paymentMethod == CashMethod then CashPending else row.cash)
    case Cancelled => row.(
      status := Cancelled,
      cancelledAt := Some(at),
      cancelledBy := who,
      refunds := row.refunds + 1)
    case _ => row
  }

  /** The row an accept writes. */
  function AcceptRow(row: Trip, driver: DriverId, otp: string, at: Time): Trip {
    row.(driver := Some(driver), status := Accepted, acceptedAt := Some(at), otp := Some(otp))
  }

  /** The row the accept timeout writes. */
  function TimeoutRow(row: Trip, at: Time): Trip {
    row.(status := Cancelled, cancelledAt := Some(at), cancelledBy := BySystem)
  }

  /** The checks of a cash confirmation, made on the locked row. A payment already confirmed is a
      success that writes nothing, so its verdict is a `Committed` answer. */
  function DecideCash(row: Trip): Verdict {
    if row.status != Completed then Refuse(Rejected(Plain))
    else if row.paymentMethod != CashMethod && row.paid then Refuse(Rejected(Plain))
    else if row.cash == NoCash || row.cash == CashFailed then Refuse(Rejected(Plain))
    else if row.cash == CashPaid then Refuse(Committed(Completed))
    else Proceed
  }

  /** The row a cash confirmation writes. */
  function CashRow(row: Trip): Trip {
    row.(cash := CashPaid, paid := true, cashSettlements := row.cashSettlements + 1)
  }

  /** What the driver's own row says: may operate, not blocked, with a vehicle, and no lockout running. */
  predicate InGoodStanding(driver: Driver, now: Time) {
    driver.mayOperate && driver.status != Blocked && driver.hasVehicle && driver.lockedUntil <= now
  }

  /** May this driver accept at all? The lock of the driver's row does not hold the sessions still. */
  predicate Eligible(driver: Driver, now: Time) {
    InGoodStanding(driver, now) && !driver.overCap
  }

  // ---- What one socket is to the trip --------------------------------------------------------

  datatype Participation = RiderPart | AssignedDriverPart | CandidateDriverPart | NoPart

  function Resolve(row: Trip, user: UserId, profile: Option<DriverId>, drivers: map<DriverId, Driver>): Participation {
    if row.rider == user then RiderPart
    else if profile.None? then NoPart
    else if row.driver.Some? then
      (if row.driver == profile then AssignedDriverPart else NoPart)
    else if row.status != NoStatus && row.status != Requested then NoPart
    else if profile.value !in drivers then NoPart
    else if !drivers[profile.value].mayOperate || drivers[profile.value].status == Blocked then NoPart
    else CandidateDriverPart
  }

  // ---- Row invariants ------------------------------------------------------------------------

  predicate At(time: Option<Time>, now: Time) {
    time.Some? && time.value <= now
  }

  /** What every stored row satisfies at time `now`. The two counters say "exactly once, iff":
      a payment iff the trip completed, a refund step iff a rider or driver cancelled it. */
  predicate RowOk(row: Trip, now: Time) {
    && (row.driver.Some? <==> row.acceptedAt.Some?)
    && (Active(row.status) || row.status == Completed ==> row.driver.Some?)
    && (row.status == NoStatus || row.status == Requested ==> row.driver.None?)
    && (row.acceptedAt.Some? ==> row.acceptedAt.value <= now)
    && (if row.status == Completed then At(row.completedAt, now) else row.completedAt.None?)
    && (if row.status == Cancelled then At(row.cancelledAt, now) else row.cancelledAt.None?)
    && (row.acceptedAt.Some? && EndOf(row).Some? ==> row.acceptedAt.value <= EndOf(row).value)
    && (row.cancelledBy == Nobody <==> row.status != Cancelled)
    && row.payments == (if row.status == Completed then 1 else 0)
    && row.refunds == (if row.cancelledBy == ByRider || row.cancelledBy == ByDriver then 1 else 0)
    && row.cashSettlements == (if row.cash == CashPaid then 1 else 0)
    && (row.cash != NoCash ==> row.status == Completed)
  }

  /** How a stored row may change over time: identity columns stay, an assignment stays, the status
      only moves along Reach, a finished trip keeps its end, its payment and its refund, and cash
      once paid stays paid. */
  predicate Evolves(a: Trip, b: Trip) {
    && b.rider == a.rider && b.requestKey == a.requestKey && b.creator == a.creator
    && (a.driver.Some? ==> b.driver == a.driver && b.acceptedAt == a.acceptedAt && b.otp == a.otp)
    && Reach(a.status, b.status)
    && (Terminal(a.status) ==>
          && b.driver == a.driver && b.acceptedAt == a.acceptedAt
          && b.completedAt == a.completedAt && b.cancelledAt == a.cancelledAt
          && b.cancelledBy == a.cancelledBy
          && b.payments == a.payments && b.refunds == a.refunds)
    && (a.cash == CashPaid ==> b.cash == CashPaid && b.cashSettlements == a.cashSettlements)
  }

  lemma EvolvesTransitive(a: Trip, b: Trip, c: Trip)
    requires Evolves(a, b) && Evolves(b, c)
    ensures Evolves(a, c)
  {
    ReachTransitive(a.status, b.status, c.status);
  }

  /** Every row a command writes keeps the row invariant and is a legal evolution. */
  lemma AdvanceKeepsRow(row: Trip, target: Status, who: Canceller, at: Time, now: Time)
    requires RowOk(row, now) && Allowed(row.status, target) && at <= now
    requires row.acceptedAt.Some? ==> row.acceptedAt.value <= at
    requires who == ByRider || who == ByDriver
    ensures RowOk(AdvanceRow(row, target, who, at), now)
    ensures Evolves(row, AdvanceRow(row, target, who, at))
  {
  }

  lemma AcceptKeepsRow(row: Trip, driver: DriverId, otp: string, at: Time, now: Time)
    requires RowOk(row, now) && Open(row) && at <= now
    ensures RowOk(AcceptRow(row, driver, otp, at), now)
    ensures Evolves(row, AcceptRow(row, driver, otp, at))
  {
  }

  lemma TimeoutKeepsRow(row: Trip, at: Time, now: Time)
    requires RowOk(row, now) && Open(row) && at <= now
    ensures RowOk(TimeoutRow(row, at), now)
    ensures Evolves(row, TimeoutRow(row, at))
  {
  }

  lemma CashKeepsRow(row: Trip, now: Time)
    requires RowOk(row, now) && DecideCash(row).Proceed?
    ensures RowOk(CashRow(row), now)
    ensures Evolves(row, CashRow(row))
  {
  }
}
