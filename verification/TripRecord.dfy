/** The critical sections of the lifecycle commands, performed on a mutable row field by field, as
    the code does between taking the row lock and committing.

    Each method is tied to the decision and the row function the interleaved protocol uses, so what
    TripTheorems proves about those is proved about these updates. */
module TripRecord {
  import opened TripRows

  /** A trip nobody has taken, still asked for. */
  predicate OpenTo(driver: Option<DriverId>, status: Status) {
    driver.None? && (status == NoStatus || status == Requested)
  }

  /** The statuses a trip is moved to a target from. */
  predicate MovesFrom(target: Status, status: Status) {
    match status
    case Requested => target == Cancelled
    case Accepted => target == Reached || target == InProgress || target == Cancelled
    case Reached => target == InProgress || target == Cancelled
    case InProgress => target == Completed || target == Cancelled
    case _ => false
  }

  function CodeText(otp: Option<string>): string {
    match otp
    case Some(code) => code
    case None => "None"
  }

  /** The whole row after a transition, column by column. */
  function Moved(row: Trip, target: Status, who: Canceller, now: Time): Trip {
    row.(
      status := target,
      reachedAt := if target == Reached then Some(now) else row.reachedAt,
      startedAt := if target == InProgress then Some(now) else row.startedAt,
      completedAt := if target == Completed then Some(now) else row.completedAt,
      cancelledAt := if target == Cancelled then Some(now) else row.cancelledAt,
      cancelledBy := if target == Cancelled then who else row.cancelledBy,
      payments := row.payments + (if target == Completed then 1 else 0),
      refunds := row.refunds + (if target == Cancelled then 1 else 0),
      paid := row.paid || (target == Completed && row.paymentMethod == WalletMethod),
      cash := if target == Completed && row.paymentMethod == CashMethod then CashPending else row.cash)
  }

  lemma MovedIsAdvanced(row: Trip, target: Status, who: Canceller, now: Time)
    requires target == Reached || target == InProgress || target == Completed || target == Cancelled
    ensures AdvanceRow(row, target, who, now) == Moved(row, target, who, now)
  {
  }

  class TripRecord {
    var rider: UserId
    var requestKey: Option<string>
    var creator: ProcId
    var paymentMethod: PaymentMethod
    var driver: Option<DriverId>
    var status: Status
    var otp: Option<string>
    var acceptedAt: Option<Time>
    var reachedAt: Option<Time>
    var startedAt: Option<Time>
    var completedAt: Option<Time>
    var cancelledAt: Option<Time>
    var cancelledBy: Canceller
    var paid: bool
    var cash: CashPayment
    var payments: nat
    var refunds: nat
    var cashSettlements: nat

    /** The stored row. */
    function Row(): Trip
      reads this
    {
      Trip(rider, requestKey, creator, paymentMethod, driver, status, otp, acceptedAt, reachedAt, startedAt,
           completedAt, cancelledAt, cancelledBy, paid, cash, payments, refunds, cashSettlements)
    }

    constructor FromRow(row: Trip)
      ensures Row() == row
    {
      rider, requestKey, creator, paymentMethod := row.rider, row.requestKey, row.creator, row.paymentMethod;
      driver, status, otp, acceptedAt := row.driver, row.status, row.otp, row.acceptedAt;
      reachedAt, startedAt, completedAt := row.reachedAt, row.startedAt, row.completedAt;
      cancelledAt, cancelledBy, paid, cash := row.cancelledAt, row.cancelledBy, row.paid, row.cash;
      payments, refunds, cashSettlements := row.payments, row.refunds, row.cashSettlements;
    }

    /** Take an open trip for a driver already found eligible and free. */
    method Accept(acceptingDriver: DriverId, code: string, now: Time)
      returns (answer: Answer)
      modifies this
      ensures Row() == if Open(old(Row())) then AcceptRow(old(Row()), acceptingDriver, code, now) else old(Row())
      ensures answer == if OpenTo(old(driver), old(status)) then Committed(Accepted) else Rejected(TripTaken)
      ensures answer == Committed(Accepted) ==> driver == Some(acceptingDriver) && status == Accepted
      ensures answer == Committed(Accepted) ==> acceptedAt == Some(now) && otp == Some(code)
      ensures answer == Rejected(TripTaken) ==> Row() == old(Row())
      ensures Row() == old(Row()).(driver := driver, status := status, acceptedAt := acceptedAt, otp := otp)
    {
      if driver.Some? {
        return Rejected(TripTaken);
      }
      if status != NoStatus && status != Requested {
        return Rejected(TripTaken);
      }
      driver := Some(acceptingDriver);
      status := Accepted;
      acceptedAt := Some(now);
      otp := Some(code);
      return Committed(Accepted);
    }

    /** Advance the state machine: refuse without touching the row, or write exactly one
        transition. */
    method Advance(target: Status, otpInput: string, who: Canceller, now: Time)
      returns (answer: Answer)
      requires target == Reached || target == InProgress || target == Completed || target == Cancelled
      modifies this
      ensures var decision := Decide(old(Row()), target, otpInput);
        if decision.Refuse? then answer == decision.answer && Row() == old(Row())
        else answer == Committed(target) && Row() == AdvanceRow(old(Row()), target, who, now)
      ensures !MovesFrom(target, old(status)) ==>
        answer == if old(status) == target then AlreadyDone(target) else Rejected(InvalidTransition)
      ensures MovesFrom(target, old(status)) ==>
        answer == if target == InProgress && CodeText(old(otp)) != otpInput then Rejected(InvalidOtp)
            else Committed(target)
    {
      hide AdvanceRow;
      if !Allowed(status, target) {
        if status == target {
          return AlreadyDone(target);
        }
        return Rejected(InvalidTransition);
      }
      if target == Cancelled && (status == Completed || status == Cancelled) {
        return if status == Cancelled then AlreadyDone(Cancelled) else Rejected(TripAlreadyCompleted);
      }
      if target == InProgress && OtpText(otp) != otpInput {
        return Rejected(InvalidOtp);
      }
      Write(target, who, now);
      return Committed(target);
    }

    /** The one write of an allowed transition: the status, its stamp, and its effects. */
    method Write(target: Status, who: Canceller, now: Time)
      requires target == Reached || target == InProgress || target == Completed || target == Cancelled
      modifies this
      ensures Row() == AdvanceRow(old(Row()), target, who, now)
      ensures Row() == Moved(old(Row()), target, who, now)
    {
      hide AdvanceRow;
      MovedIsAdvanced(Row(), target, who, now);
      status := target;
      if target == Reached {
        reachedAt := Some(now);
      } else if target == InProgress {
        startedAt := Some(now);
      } else if target == Completed {
        completedAt := Some(now);
        CreatePayment();
      } else {
        cancelledAt := Some(now);
        cancelledBy := who;
        refunds := refunds + 1;
      }
    }

    /** Payment creation at completion, as far as the trip row sees it. */
    method CreatePayment()
      modifies this`payments, this`paid, this`cash
      ensures payments == old(payments) + 1
      ensures paid == (old(paid) || paymentMethod == WalletMethod)
      ensures cash == if paymentMethod == CashMethod then CashPending else old(cash)
    {
      payments := payments + 1;
      if paymentMethod == WalletMethod {
        paid := true;
      } else if paymentMethod == CashMethod {
        cash := CashPending;
      }
    }

    /** Record that the driver collected the fare. A second confirmation succeeds and settles
        nothing. */
    method ConfirmCash()
      returns (answer: Answer)
      modifies this
      ensures match DecideCash(old(Row()))
              case Refuse(refusal) => answer == refusal && Row() == old(Row())
              case Proceed => answer == Committed(Completed) && Row() == CashRow(old(Row()))
      ensures var due := old(status) == Completed && (old(paymentMethod) == CashMethod || !old(paid));
        answer == if due && (old(cash) == CashPending || old(cash) == CashPaid) then Committed(Completed)
            else Rejected(Plain)
      ensures answer == Rejected(Plain) || old(cash) == CashPaid ==> Row() == old(Row())
      ensures answer == Committed(Completed) && old(cash) == CashPending ==>
        cash == CashPaid && paid && cashSettlements == old(cashSettlements) + 1
      ensures Row() == old(Row()).(cash := cash, paid := paid, cashSettlements := cashSettlements)
    {
      if status != Completed {
        return Rejected(Plain);
      }
      if paymentMethod != CashMethod && paid {
        return Rejected(Plain);
      }
      if cash == NoCash || cash == CashFailed {
        return Rejected(Plain);
      }
      if cash == CashPaid {
        return Committed(Completed);
      }
      cash := CashPaid;
      paid := true;
      cashSettlements := cashSettlements + 1;
      return Committed(Completed);
    }

    /** The accept timeout: stands down unless nobody took the trip and it is still open. */
    method TimeOut(now: Time)
      returns (answer: Answer)
      modifies this
      ensures Row() == if Open(old(Row())) then TimeoutRow(old(Row()), now) else old(Row())
      ensures answer == if OpenTo(old(driver), old(status)) then Committed(Cancelled) else StoodDown
      ensures answer == StoodDown ==> Row() == old(Row())
      ensures answer == Committed(Cancelled) ==>
        status == Cancelled && cancelledAt == Some(now) && cancelledBy == BySystem
      ensures Row() == old(Row()).(status := status, cancelledAt := cancelledAt, cancelledBy := cancelledBy)
    {
      if driver.Some? {
        return StoodDown;
      }
      if Terminal(status) || Active(status) {
        return StoodDown;
      }
      status := Cancelled;
      cancelledAt := Some(now);
      cancelledBy := BySystem;
      return Committed(Cancelled);
    }
  }
}
