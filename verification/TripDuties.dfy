/** What each command on a trip has to do: what it writes and answers, spelled out column by column and
    reason by reason, in every run; and that it does it when nothing stands in its way. */
module TripDuties {
  import opened TripRows
  import opened TripProtocol
  import opened TripInvariant
  import opened TripPreservation
  import opened TripTheorems

  // ---- Which moves there are ---------------------------------------------------------------------

  /** The statuses a verb moves a trip from. */
  predicate MayMove(verb: Verb, status: Status) {
    match verb
    case MarkReached => status == Accepted
    case StartRide => status == Accepted || status == Reached
    case CompleteRide => status == InProgress
    case CancelRide => status == Requested || status == Accepted || status == Reached || status == InProgress
  }

  /** The status a verb moves a trip to. */
  predicate MovesTo(verb: Verb, status: Status) {
    match status
    case Reached => verb == MarkReached
    case InProgress => verb == StartRide
    case Completed => verb == CompleteRide
    case Cancelled => verb == CancelRide
    case _ => false
  }

  lemma VerbsMove(verb: Verb, status: Status)
    ensures Allowed(status, Target(verb)) <==> MayMove(verb, status)
    ensures MovesTo(verb, Target(verb))
  {
  }

  // ---- What is written ----------------------------------------------------------------------------

  /** What an update makes of a row: the status, its stamp and its effects, and nothing else. */
  predicate Moved(verb: Verb, user: UserId, was: Trip, row: Trip, now: Time) {
    && MayMove(verb, was.status) && MovesTo(verb, row.status)
    && match verb
       case MarkReached => At(row.reachedAt, now) && row == was.(status := row.status, reachedAt := row.reachedAt)
       case StartRide => At(row.startedAt, now) && row == was.(status := row.status, startedAt := row.startedAt)
       case CompleteRide =>
         && At(row.completedAt, now) && row.payments == was.payments + 1
         && (row.paid <==> was.paid || was.paymentMethod == WalletMethod)
         && (was.paymentMethod == CashMethod ==> row.cash == CashPending)
         && (was.paymentMethod != CashMethod ==> row.cash == was.cash)
         && row == was.(status := row.status, completedAt := row.completedAt, payments := row.payments,
              paid := row.paid, cash := row.cash)
       case CancelRide =>
         && At(row.cancelledAt, now) && row.refunds == was.refunds + 1
         && (was.rider == user ==> row.cancelledBy == ByRider) && (was.rider != user ==> row.cancelledBy == ByDriver)
         && row == was.(status := row.status, cancelledAt := row.cancelledAt, cancelledBy := row.cancelledBy,
              refunds := row.refunds)
  }

  /** What a command makes of the row of its trip. */
  predicate Wrote(cmd: Command, was: Trip, row: Trip, now: Time) {
    match cmd
    case AcceptTrip(_, profile, _) =>
      && was.driver.None? && (was.status == NoStatus || was.status == Requested)
      && profile.Some? && row.driver == profile && row.status == Accepted && row.otp.Some? && At(row.acceptedAt, now)
      && row == was.(driver := row.driver, status := row.status, otp := row.otp, acceptedAt := row.acceptedAt)
    case UpdateTrip(user, _, _, verb, otp) =>
      Moved(verb, user, was, row, now) && (verb == StartRide ==> TripCode(was) == otp)
    case ConfirmCash(_, _, _) =>
      && was.status == Completed && was.cash == CashPending
      && row == was.(cash := CashPaid, paid := true, cashSettlements := was.cashSettlements + 1)
    case TimeOutTrip(_) =>
      && was.driver.None? && (was.status == NoStatus || was.status == Requested)
      && At(row.cancelledAt, now)
      && row == was.(status := Cancelled, cancelledAt := row.cancelledAt, cancelledBy := BySystem)
    case _ => false
  }

  /** The trip's code as it is compared: a trip without one has the text "None". */
  function TripCode(row: Trip): string {
    match row.otp
    case Some(code) => code
    case None => "None"
  }

  /** A new booking: its rider, key and payment method, asked for and nothing more. */
  predicate Booking(cmd: Command, p: ProcId, row: Trip) {
    && cmd.BookTrip? && row.rider == cmd.user && row.requestKey == cmd.key && row.paymentMethod == cmd.paymentMethod
    && row.creator == p && row.status == Requested && row.driver.None? && row.otp.None?
    && row.acceptedAt.None? && row.reachedAt.None? && row.startedAt.None?
    && row.completedAt.None? && row.cancelledAt.None? && row.cancelledBy == Nobody
    && !row.paid && row.cash == NoCash && row.payments == 0 && row.refunds == 0 && row.cashSettlements == 0
  }

  /** What a command makes of the row of a driver: a toggle its status, a completion its counter. */
  predicate WroteDriver(cmd: Command, d: DriverId, was: Driver, driver: Driver) {
    match cmd
    case GoOnline(whose) => whose == d && driver == was.(status := Online)
    case GoOffline(whose) => whose == d && was.status != Blocked && driver == was.(status := Off)
    case UpdateTrip(_, _, _, CompleteRide, _) => driver == was.(totalTrips := was.totalTrips + 1)
    case _ => false
  }

  lemma StagedIsWrote(s: State, pr: Proc)
    requires RowsOk(s) && pr.pc.Staged? && PcOk(s, 0, pr) && HoldsTrip(pr)
    ensures pr.cmd.trip in s.trips && Wrote(pr.cmd, s.trips[pr.cmd.trip], pr.pc.row, s.now)
  {
    hide FreeBy, RowOk;
    if pr.cmd.UpdateTrip? {
      UpdateIsWrote(s, pr);
    }
  }

  lemma UpdateIsWrote(s: State, pr: Proc)
    requires RowsOk(s) && pr.pc.Staged? && pr.cmd.UpdateTrip? && UpdateOk(s, pr)
    ensures pr.cmd.trip in s.trips && Wrote(pr.cmd, s.trips[pr.cmd.trip], pr.pc.row, s.now)
  {
    hide RowOk, Refusal;
    VerbsMove(pr.cmd.verb, s.trips[pr.cmd.trip].status);
  }

  /** The driver a commit counts a completion for. */
  lemma CommitIs(s: State, p: ProcId, otp: string, newTrip: TripId)
    requires p in s.procs && HoldsTrip(s.procs[p]) && s.procs[p].pc.Staged?
    requires s.procs[p].cmd.UpdateTrip? && s.procs[p].cmd.verb == CompleteRide ==> s.procs[p].pc.row.status == Completed
    ensures var pr, s' := s.procs[p], ProcStep(s, p, otp, newTrip);
      && s'.trips == s.trips[pr.cmd.trip := pr.pc.row] && p in s'.procs
      && s'.procs[p] == pr.(pc := AfterCommit, wrote := true)
      && (forall d :: d in s'.drivers <==> d in s.drivers)
    ensures var pr, s' := s.procs[p], ProcStep(s, p, otp, newTrip);
      forall d :: d in s.drivers ==>
        s'.drivers[d] ==
          if pr.cmd.UpdateTrip? && pr.cmd.verb == CompleteRide && pr.pc.row.driver == Some(d)
          then s.drivers[d].(totalTrips := s.drivers[d].totalTrips + 1) else s.drivers[d]
  {
    hide MovesOnly, OnlyProc, Release, Refusal, Decide;
  }

  /** In every run: whatever changes a stored trip row is a step of a command on that trip, and it changes
      the row as the command is to change it, column by column. */
  lemma EveryWriteIsSpelled(s: State, events: seq<Event>, e: Event, t: TripId)
    requires Initial(s)
    requires var r := Run(s, events); t in r.trips && t in Next(r, e).trips && Next(r, e).trips[t] != r.trips[t]
    ensures var r := Run(s, events);
      && e.Step? && e.p in r.procs && HoldsTrip(r.procs[e.p]) && r.procs[e.p].cmd.trip == t
      && Wrote(r.procs[e.p].cmd, r.trips[t], Next(r, e).trips[t], r.now)
  {
    hide Inv, Run, ProcOk, RowsOk, ProcStep, Wrote, Connect;
    RunKeepsInv(s, events);
    var r := Run(s, events);
    InvProc(r, e.p);
    if r.procs[e.p].pc.Staged? {
      StagedHolds(r, e.p);
      StagedFits(r, e.p);
      CommitIs(r, e.p, e.otp, e.newTrip);
    } else {
      QuietKeepsStatus(r, e.p, e.otp, e.newTrip, t);
    }
  }

  lemma StagedFits(s: State, p: ProcId)
    requires RowsOk(s) && p in s.procs && ProcOk(s, p) && s.procs[p].pc.Staged? && HoldsTrip(s.procs[p])
    ensures var pr := s.procs[p];
      pr.cmd.trip in s.trips && Wrote(pr.cmd, s.trips[pr.cmd.trip], pr.pc.row, s.now)
    ensures var pr := s.procs[p]; pr.cmd.UpdateTrip? && pr.cmd.verb == CompleteRide ==> pr.pc.row.status == Completed
  {
    hide RowsOk, AcceptOk, UpdateOk, CashOk, TimeOutOk, BookOk, HoldsOk, WroteOk, SubscribedOk;
    PcIsAnyones(s, p, s.procs[p]);
    StagedIsWrote(s, s.procs[p]);
  }

  lemma PcIsAnyones(s: State, p: ProcId, pr: Proc)
    requires PcOk(s, p, pr) && !pr.cmd.BookTrip?
    ensures PcOk(s, 0, pr)
  {
  }

  /** In every run: a trip that is new is the booking of the command whose step adds it. */
  lemma EveryBookingIsSpelled(s: State, events: seq<Event>, e: Event, t: TripId)
    requires Initial(s) && t !in Run(s, events).trips && t in Next(Run(s, events), e).trips
    ensures var r := Run(s, events);
      e.Step? && e.p in r.procs && Booking(r.procs[e.p].cmd, e.p, Next(r, e).trips[t])
  {
    hide Inv, Run, ProcOk, RowsOk, ProcStep, Booking, Connect;
    RunKeepsInv(s, events);
    var r := Run(s, events);
    InvProc(r, e.p);
    if r.procs[e.p].pc.Staged? {
      StagedHolds(r, e.p);
      StagedFits(r, e.p);
      CommitIs(r, e.p, e.otp, e.newTrip);
    } else {
      OnlyBookingsAdd(r, e.p, e.otp, e.newTrip, t);
    }
  }

  lemma OnlyBookingsAdd(s: State, p: ProcId, otp: string, newTrip: TripId, t: TripId)
    requires p in s.procs && !s.procs[p].pc.Staged? && t !in s.trips && t in ProcStep(s, p, otp, newTrip).trips
    ensures Booking(s.procs[p].cmd, p, ProcStep(s, p, otp, newTrip).trips[t])
  {
    hide AcceptStep, UpdateStep, CashStep, TimeOutStep, MovesOnly, HasBooking;
  }

  /** In every run: whatever step changes a driver's row is a toggle of that driver, which writes the status,
      or the completion of that driver's trip, which counts it; nothing else of the row changes. */
  lemma EveryDriverWriteIsSpelled(s: State, events: seq<Event>, p: ProcId, otp: string, newTrip: TripId, d: DriverId)
    requires Initial(s) && p in Run(s, events).procs && d in Run(s, events).drivers
    ensures var r := Run(s, events); d in Next(r, Step(p, otp, newTrip)).drivers
    ensures var r := Run(s, events);
      var driver := Next(r, Step(p, otp, newTrip)).drivers[d];
      driver != r.drivers[d] ==> WroteDriver(r.procs[p].cmd, d, r.drivers[d], driver)
  {
    hide Inv, Run, ProcOk, RowsOk, ProcStep, WroteDriver;
    RunKeepsInv(s, events);
    var r := Run(s, events);
    InvProc(r, p);
    if r.procs[p].pc.Staged? {
      StagedHolds(r, p);
      StagedFits(r, p);
      CommitIs(r, p, otp, newTrip);
      CommitCounts(r, p, otp, newTrip, d);
    } else if r.procs[p].pc.Saving? {
      ToggleWrites(r, p, otp, newTrip, d);
    } else if r.procs[p].pc.Pricing? {
      BookLeavesDrivers(r, p, otp, newTrip, d);
    } else {
      assert SameRows(r, ProcStep(r, p, otp, newTrip));
    }
  }

  lemma CommitCounts(s: State, p: ProcId, otp: string, newTrip: TripId, d: DriverId)
    requires p in s.procs && d in s.drivers && d in ProcStep(s, p, otp, newTrip).drivers
    requires var pr := s.procs[p];
      ProcStep(s, p, otp, newTrip).drivers[d] ==
        if pr.cmd.UpdateTrip? && pr.cmd.verb == CompleteRide && pr.pc.Staged? && pr.pc.row.driver == Some(d)
        then s.drivers[d].(totalTrips := s.drivers[d].totalTrips + 1) else s.drivers[d]
    ensures var driver := ProcStep(s, p, otp, newTrip).drivers[d];
      driver != s.drivers[d] ==> WroteDriver(s.procs[p].cmd, d, s.drivers[d], driver)
  {
    hide ProcStep;
  }

  lemma ToggleWrites(s: State, p: ProcId, otp: string, newTrip: TripId, d: DriverId)
    requires p in s.procs && ProcOk(s, p) && s.procs[p].pc.Saving? && d in s.drivers
    ensures var s' := ProcStep(s, p, otp, newTrip);
      && d in s'.drivers
      && (s'.drivers[d] != s.drivers[d] ==> WroteDriver(s.procs[p].cmd, d, s.drivers[d], s'.drivers[d]))
  {
    hide AcceptStep, UpdateStep, CashStep, TimeOutStep, BookStep, MovesOnly, SubscribedOk, HoldsOk, WroteOk;
  }

  lemma BookLeavesDrivers(s: State, p: ProcId, otp: string, newTrip: TripId, d: DriverId)
    requires p in s.procs && ProcOk(s, p) && s.procs[p].pc.Pricing? && d in s.drivers
    ensures ProcStep(s, p, otp, newTrip).drivers == s.drivers
  {
    hide AcceptStep, UpdateStep, CashStep, TimeOutStep, ToggleStep, MovesOnly, SubscribedOk, HoldsOk, WroteOk,
        HasBooking;
  }

  // ---- What is answered ----------------------------------------------------------------------------

  predicate IsDriverOf(s: State, cmd: Command)
    requires cmd.AcceptTrip? || cmd.UpdateTrip? || cmd.ConfirmCash?
  {
    cmd.trip in s.trips && cmd.profile.Some? && s.trips[cmd.trip].driver == cmd.profile
  }

  predicate IsRiderOf(s: State, cmd: Command)
    requires cmd.AcceptTrip? || cmd.UpdateTrip? || cmd.ConfirmCash?
  {
    cmd.trip in s.trips && s.trips[cmd.trip].rider == cmd.user
  }

  /** Why a driver may not take a trip at all. */
  predicate Unfit(s: State, d: DriverId) {
    d !in s.drivers || !s.drivers[d].mayOperate || s.drivers[d].status == Blocked || !s.drivers[d].hasVehicle
    || s.drivers[d].lockedUntil > s.now || s.drivers[d].overCap
  }

  predicate Taken(s: State, t: TripId) {
    && t in s.trips
    && (s.trips[t].driver.Some? || (s.trips[t].status != NoStatus && s.trips[t].status != Requested))
  }

  /** Is the driver on the way to, at, or on some other trip? */
  predicate Busy(s: State, d: DriverId, t: TripId) {
    exists u :: u in s.trips && u != t && s.trips[u].driver == Some(d)
      && (s.trips[u].status == Accepted || s.trips[u].status == Reached || s.trips[u].status == InProgress)
  }

  /** The answer an accept gives when its next step ends it. */
  ghost predicate AcceptDeserves(s: State, pr: Proc, answer: Answer)
    requires pr.cmd.AcceptTrip?
  {
    var t, profile := pr.cmd.trip, pr.cmd.profile;
    match answer
    case Rejected(NotADriver) =>
      && pr.pc.Begin?
      && (profile.None? || (pr.participation != CandidateDriverPart && pr.participation != AssignedDriverPart))
    case Rejected(TripTaken) => pr.pc.HaveTrip? && Taken(s, t)
    case Rejected(DriverAlreadyOnTrip) =>
      pr.pc.HaveDriver? && profile.Some? && !Unfit(s, profile.value) && Busy(s, profile.value, t)
    case Rejected(Plain) =>
      || (pr.pc.WantTrip? && t !in s.trips)
      || (pr.pc.HaveTrip? && profile.Some? && profile.value !in s.drivers && !Taken(s, t))
      || (pr.pc.HaveDriver? && profile.Some? && Unfit(s, profile.value))
    case Committed(status) => pr.pc.AfterCommit? && status == Accepted
    case _ => false
  }

  ghost predicate UpdateDeserves(s: State, pr: Proc, answer: Answer)
    requires pr.cmd.UpdateTrip?
  {
    var t, verb := pr.cmd.trip, pr.cmd.verb;
    match answer
    case Rejected(NotAuthorisedToCancel) =>
      pr.pc.Begin? && verb == CancelRide && !IsRiderOf(s, pr.cmd) && !IsDriverOf(s, pr.cmd)
    case Rejected(NotAssignedDriver) => pr.pc.Begin? && verb != CancelRide && !IsDriverOf(s, pr.cmd)
    case Rejected(OtpRequired) => pr.pc.Begin? && verb == StartRide && IsDriverOf(s, pr.cmd) && pr.cmd.otp == ""
    case Rejected(Plain) => pr.pc.WantTrip? && t !in s.trips
    case Rejected(InvalidTransition) =>
      pr.pc.HaveTrip? && t in s.trips && !MayMove(verb, s.trips[t].status) && !MovesTo(verb, s.trips[t].status)
    case AlreadyDone(status) =>
      pr.pc.HaveTrip? && t in s.trips && s.trips[t].status == status && MovesTo(verb, status)
    case Rejected(InvalidOtp) =>
      && pr.pc.HaveTrip? && t in s.trips && verb == StartRide && MayMove(verb, s.trips[t].status)
      && TripCode(s.trips[t]) != pr.cmd.otp
    case Committed(status) => pr.pc.AfterCommit? && MovesTo(verb, status)
    case _ => false
  }

  /** Why there is no cash to confirm. */
  predicate NoCashDue(row: Trip) {
    || row.status != Completed || (row.paid && row.paymentMethod != CashMethod)
    || row.cash == NoCash || row.cash == CashFailed
  }

  ghost predicate CashDeserves(s: State, pr: Proc, answer: Answer)
    requires pr.cmd.ConfirmCash?
  {
    var t := pr.cmd.trip;
    match answer
    case Rejected(NotAssignedDriver) => pr.pc.Begin? && !IsDriverOf(s, pr.cmd)
    case Rejected(Plain) =>
      (pr.pc.WantTrip? && t !in s.trips) || (pr.pc.HaveTrip? && t in s.trips && NoCashDue(s.trips[t]))
    case Committed(status) =>
      pr.pc.AfterCommit? && status == Completed && t in s.trips && s.trips[t].cash == CashPaid
    case _ => false
  }

  ghost predicate TimeOutDeserves(s: State, pr: Proc, answer: Answer)
    requires pr.cmd.TimeOutTrip?
  {
    match answer
    case Rejected(Plain) => pr.pc.WantTrip? && pr.cmd.trip !in s.trips
    case StoodDown => pr.pc.HaveTrip? && Taken(s, pr.cmd.trip)
    case Committed(status) => pr.pc.AfterCommit? && status == Cancelled
    case _ => false
  }

  /** Is the trip the rider's booking under this key? */
  predicate IsBooking(s: State, t: TripId, cmd: Command)
    requires cmd.BookTrip?
  {
    t in s.trips && s.trips[t].rider == cmd.user && cmd.key.Some? && s.trips[t].requestKey == cmd.key
  }

  ghost predicate BookDeserves(s: State, pr: Proc, answer: Answer)
    requires pr.cmd.BookTrip?
  {
    match answer
    case Booked(t, true) => (pr.pc.Begin? || pr.pc.Pricing?) && IsBooking(s, t, pr.cmd)
    case Booked(t, false) => pr.pc == AfterInsert(t)
    case _ => false
  }

  ghost predicate ToggleDeserves(s: State, pr: Proc, answer: Answer)
    requires pr.cmd.GoOnline? || pr.cmd.GoOffline?
  {
    var d := pr.cmd.driver;
    match answer
    case Toggled(true) => pr.pc.Saved?
    case Toggled(false) =>
      || (pr.pc.Begin? && (d !in s.drivers || (pr.cmd.GoOnline? && !s.drivers[d].mayOperate)))
      || (pr.pc.Loaded? && pr.cmd.GoOnline? && d in s.drivers
          && (pr.pc.snapshot.lockedUntil > s.now || s.drivers[d].overCap))
    case _ => false
  }

  ghost predicate Deserves(s: State, pr: Proc, answer: Answer) {
    match pr.cmd
    case AcceptTrip(_, _, _) => AcceptDeserves(s, pr, answer)
    case UpdateTrip(_, _, _, _, _) => UpdateDeserves(s, pr, answer)
    case ConfirmCash(_, _, _) => CashDeserves(s, pr, answer)
    case TimeOutTrip(_) => TimeOutDeserves(s, pr, answer)
    case BookTrip(_, _, _) => BookDeserves(s, pr, answer)
    case GoOnline(_) => ToggleDeserves(s, pr, answer)
    case GoOffline(_) => ToggleDeserves(s, pr, answer)
  }

  /** In every run: the answer with which a step of a command ends it is the one the stored rows, as the step
      finds them, deserve; and when they deserve one, the step ends it with that. */
  lemma EveryAnswerIsDeserved(s: State, events: seq<Event>, p: ProcId, otp: string, newTrip: TripId, answer: Answer)
    requires Initial(s) && p in Run(s, events).procs && !Run(s, events).procs[p].pc.Done?
    requires newTrip !in Run(s, events).trips
    ensures var r := Run(s, events); var after := Next(r, Step(p, otp, newTrip));
      p in after.procs && (after.procs[p].pc == Done(answer) <==> Deserves(r, r.procs[p], answer))
  {
    hide Inv, Run, ProcOk, RowsOk, ProcStep, KeysUnique;
    RunKeepsInv(s, events);
    var r := Run(s, events);
    InvProc(r, p);
    InvKeys(r);
    StepDeserves(r, p, otp, newTrip, answer);
  }

  lemma InvKeys(s: State)
    requires Inv(s)
    ensures KeysUnique(s.trips)
  {
  }

  lemma StepDeserves(s: State, p: ProcId, otp: string, newTrip: TripId, answer: Answer)
    requires RowsOk(s) && KeysUnique(s.trips)
    requires p in s.procs && ProcOk(s, p) && !s.procs[p].pc.Done? && newTrip !in s.trips
    ensures var s' := ProcStep(s, p, otp, newTrip);
      p in s'.procs && (s'.procs[p].pc == Done(answer) <==> Deserves(s, s.procs[p], answer))
  {
    hide AcceptStep, UpdateStep, CashStep, TimeOutStep, BookStep, ToggleStep, ProcOk, RowsOk, KeysUnique,
      AcceptDeserves, UpdateDeserves, CashDeserves, TimeOutDeserves, BookDeserves, ToggleDeserves;
    match s.procs[p].cmd {
      case AcceptTrip(_, _, _) => AcceptGives(s, p, otp, answer);
      case UpdateTrip(_, _, _, _, _) => UpdateGives(s, p, answer);
      case ConfirmCash(_, _, _) => CashGives(s, p, answer);
      case TimeOutTrip(_) => TimeOutGives(s, p, answer);
      case BookTrip(_, _, _) => BookGives(s, p, newTrip, answer);
      case GoOnline(_) => ToggleGives(s, p, answer);
      case GoOffline(_) => ToggleGives(s, p, answer);
    }
  }

  lemma AcceptGives(s: State, p: ProcId, otp: string, answer: Answer)
    requires p in s.procs && ProcOk(s, p) && !s.procs[p].pc.Done? && s.procs[p].cmd.AcceptTrip?
    ensures p in AcceptStep(s, p, otp).procs
    ensures AcceptStep(s, p, otp).procs[p].pc == Done(answer) <==> AcceptDeserves(s, s.procs[p], answer)
  {
    hide MovesOnly, OnlyProc, ProcOk, AcceptStep, AcceptDeserves;
    if s.procs[p].pc.HaveDriver? {
      AcceptGivesDriver(s, p, otp, answer);
    } else if s.procs[p].pc.Begin? || s.procs[p].pc.WantTrip? || s.procs[p].pc.HaveTrip? {
      AcceptGivesTrip(s, p, otp, answer);
    } else {
      AcceptGivesLate(s, p, otp, answer);
    }
  }

  lemma AcceptGivesTrip(s: State, p: ProcId, otp: string, answer: Answer)
    requires p in s.procs && ProcOk(s, p) && s.procs[p].cmd.AcceptTrip?
    requires s.procs[p].pc.Begin? || s.procs[p].pc.WantTrip? || s.procs[p].pc.HaveTrip?
    ensures p in AcceptStep(s, p, otp).procs
    ensures AcceptStep(s, p, otp).procs[p].pc == Done(answer) <==> AcceptDeserves(s, s.procs[p], answer)
  {
    hide MovesOnly, OnlyProc, SubscribedOk, WroteOk, HoldsOk, Reach, AcceptRow, Release, Busy, OnAnotherTrip,
        Unfit, Eligible;
  }

  lemma AcceptGivesLate(s: State, p: ProcId, otp: string, answer: Answer)
    requires p in s.procs && ProcOk(s, p) && !s.procs[p].pc.Done? && s.procs[p].cmd.AcceptTrip?
    requires !s.procs[p].pc.Begin? && !s.procs[p].pc.WantTrip? && !s.procs[p].pc.HaveTrip? && !s.procs[p].pc.HaveDriver?
    ensures p in AcceptStep(s, p, otp).procs
    ensures AcceptStep(s, p, otp).procs[p].pc == Done(answer) <==> AcceptDeserves(s, s.procs[p], answer)
  {
    hide MovesOnly, OnlyProc, SubscribedOk, WroteOk, HoldsOk, FreeBy, Reach, AcceptRow, Release, Busy, OnAnotherTrip,
      Unfit, Eligible, Taken, InGoodStanding;
  }

  lemma AcceptGivesDriver(s: State, p: ProcId, otp: string, answer: Answer)
    requires p in s.procs && ProcOk(s, p) && s.procs[p].pc.HaveDriver? && s.procs[p].cmd.AcceptTrip?
    ensures p in AcceptStep(s, p, otp).procs
    ensures AcceptStep(s, p, otp).procs[p].pc == Done(answer) <==> AcceptDeserves(s, s.procs[p], answer)
  {
    hide MovesOnly, OnlyProc, SubscribedOk, WroteOk, HoldsOk, FreeBy, Reach, AcceptRow, Release, Busy,
        OnAnotherTrip, Unfit, Eligible;
    var cmd := s.procs[p].cmd;
    FitIsEligible(s, cmd.profile.value);
    BusyIsOnAnother(s, cmd.profile.value, cmd.trip);
  }

  lemma FitIsEligible(s: State, d: DriverId)
    requires d in s.drivers
    ensures Unfit(s, d) <==> !Eligible(s.drivers[d], s.now)
  {
  }

  lemma BusyIsOnAnother(s: State, d: DriverId, t: TripId)
    ensures Busy(s, d, t) <==> OnAnotherTrip(s.trips, d, t)
  {
  }

  lemma UpdateGives(s: State, p: ProcId, answer: Answer)
    requires p in s.procs && ProcOk(s, p) && !s.procs[p].pc.Done? && s.procs[p].cmd.UpdateTrip?
    ensures p in UpdateStep(s, p).procs
    ensures UpdateStep(s, p).procs[p].pc == Done(answer) <==> UpdateDeserves(s, s.procs[p], answer)
  {
    hide MovesOnly, OnlyProc, ProcOk, UpdateStep, UpdateDeserves;
    if s.procs[p].pc.HaveTrip? {
      UpdateGivesTrip(s, p, answer);
    } else {
      UpdateGivesElse(s, p, answer);
    }
  }

  lemma UpdateGivesTrip(s: State, p: ProcId, answer: Answer)
    requires p in s.procs && ProcOk(s, p) && s.procs[p].pc.HaveTrip? && s.procs[p].cmd.UpdateTrip?
    ensures p in UpdateStep(s, p).procs
    ensures UpdateStep(s, p).procs[p].pc == Done(answer) <==> UpdateDeserves(s, s.procs[p], answer)
  {
    hide MovesOnly, OnlyProc, SubscribedOk, WroteOk, HoldsOk, Reach, AdvanceRow, Release, Refusal;
  }

  lemma UpdateGivesElse(s: State, p: ProcId, answer: Answer)
    requires p in s.procs && ProcOk(s, p) && !s.procs[p].pc.Done? && !s.procs[p].pc.HaveTrip?
      && s.procs[p].cmd.UpdateTrip?
    ensures p in UpdateStep(s, p).procs
    ensures UpdateStep(s, p).procs[p].pc == Done(answer) <==> UpdateDeserves(s, s.procs[p], answer)
  {
    hide MovesOnly, OnlyProc, SubscribedOk, WroteOk, HoldsOk, Reach, AdvanceRow, Release, MayMove, Decide;
  }

  lemma CashGives(s: State, p: ProcId, answer: Answer)
    requires RowsOk(s) && p in s.procs && ProcOk(s, p) && !s.procs[p].pc.Done? && s.procs[p].cmd.ConfirmCash?
    ensures p in CashStep(s, p).procs
    ensures CashStep(s, p).procs[p].pc == Done(answer) <==> CashDeserves(s, s.procs[p], answer)
  {
    hide MovesOnly, OnlyProc, SubscribedOk, WroteOk, HoldsOk, RowsOk, Release;
  }

  lemma TimeOutGives(s: State, p: ProcId, answer: Answer)
    requires p in s.procs && ProcOk(s, p) && !s.procs[p].pc.Done? && s.procs[p].cmd.TimeOutTrip?
    ensures p in TimeOutStep(s, p).procs
    ensures TimeOutStep(s, p).procs[p].pc == Done(answer) <==> TimeOutDeserves(s, s.procs[p], answer)
  {
    hide MovesOnly, OnlyProc, SubscribedOk, WroteOk, HoldsOk, Release;
  }

  lemma BookGives(s: State, p: ProcId, newTrip: TripId, answer: Answer)
    requires KeysUnique(s.trips)
    requires p in s.procs && ProcOk(s, p) && !s.procs[p].pc.Done? && s.procs[p].cmd.BookTrip? && newTrip !in s.trips
    ensures p in BookStep(s, p, newTrip).procs
    ensures BookStep(s, p, newTrip).procs[p].pc == Done(answer) <==> BookDeserves(s, s.procs[p], answer)
  {
    hide MovesOnly, OnlyProc, SubscribedOk, WroteOk, HoldsOk, HasBooking, KeysUnique;
    var cmd := s.procs[p].cmd;
    HasBookingIs(s, cmd);
    if HasBooking(s.trips, cmd.user, cmd.key) {
      OneBooking(s, cmd);
    }
  }

  lemma OneBooking(s: State, cmd: Command)
    requires KeysUnique(s.trips) && cmd.BookTrip? && HasBooking(s.trips, cmd.user, cmd.key)
    ensures forall t :: IsBooking(s, t, cmd) ==> t == FindBooking(s.trips, cmd.user, cmd.key)
  {
  }

  lemma ToggleGives(s: State, p: ProcId, answer: Answer)
    requires p in s.procs && ProcOk(s, p) && !s.procs[p].pc.Done?
      && (s.procs[p].cmd.GoOnline? || s.procs[p].cmd.GoOffline?)
    ensures p in ToggleStep(s, p).procs
    ensures ToggleStep(s, p).procs[p].pc == Done(answer) <==> ToggleDeserves(s, s.procs[p], answer)
  {
    hide MovesOnly, OnlyProc, SubscribedOk, WroteOk, HoldsOk, Release;
  }

  // ---- What is done when nothing stands in the way -----------------------------------------------------

  /** A command that is entitled to its write, on the rows as they are. */
  ghost predicate Entitled(s: State, cmd: Command) {
    match cmd
    case AcceptTrip(user, profile, t) =>
      && t in s.trips && s.trips[t].rider != user && !Taken(s, t)
      && profile.Some? && !Unfit(s, profile.value) && !Busy(s, profile.value, t)
    case UpdateTrip(_, profile, t, verb, otp) =>
      && t in s.trips && MayMove(verb, s.trips[t].status)
      && (IsDriverOf(s, cmd) || (verb == CancelRide && IsRiderOf(s, cmd)))
      && (verb == StartRide ==> otp != "" && otp == TripCode(s.trips[t]))
      && (verb == CompleteRide ==> profile.Some? && profile.value in s.drivers)
    case ConfirmCash(_, _, t) => t in s.trips && IsDriverOf(s, cmd) && !NoCashDue(s.trips[t])
        && s.trips[t].cash != CashPaid
    case TimeOutTrip(t) => t in s.trips && !Taken(s, t)
    case _ => false
  }

  /** The driver whose row the command locks. */
  predicate Locks(cmd: Command, d: DriverId) {
    match cmd
    case AcceptTrip(_, profile, _) => profile == Some(d)
    case UpdateTrip(_, profile, _, CompleteRide, _) => profile == Some(d)
    case _ => false
  }

  /** Nobody holds a lock the command will ask for. */
  predicate NotHeldUp(s: State, cmd: Command)
    requires cmd.AcceptTrip? || cmd.UpdateTrip? || cmd.ConfirmCash? || cmd.TimeOutTrip?
  {
    cmd.trip !in s.tripLock && forall d :: d in s.driverLock ==> !Locks(cmd, d)
  }

  /** On its way: it has got so far from `base` with nobody else moving, and what it carries is right. */
  ghost predicate Due(base: State, s: State, p: ProcId, cmd: Command, otp: string) {
    && Entitled(base, cmd) && p in s.procs && s.procs[p].cmd == cmd && !s.procs[p].wrote
    && s.trips == base.trips && s.drivers == base.drivers && s.now == base.now
    && Underfoot(base, s, s.procs[p], cmd, otp)
  }

  ghost predicate Underfoot(base: State, s: State, pr: Proc, cmd: Command, otp: string)
    requires Entitled(base, cmd)
  {
    var was := base.trips[cmd.trip];
    match pr.pc
    case Begin => NotHeldUp(s, cmd) && (cmd.AcceptTrip? ==> pr.participation == CandidateDriverPart)
    case WantTrip => NotHeldUp(s, cmd)
    case HaveTrip(row) => row == was && forall d :: d in s.driverLock ==> !Locks(cmd, d)
    case WantDriver(row, _) => Carries(cmd, was, row, s.now) && forall d :: d in s.driverLock ==> !Locks(cmd, d)
    case HaveDriver(row, _) => Carries(cmd, was, row, s.now)
    case Cleared(row) => cmd.AcceptTrip? && row == was
    case Staged(row, _) => Wrote(cmd, was, row, s.now) && (cmd.AcceptTrip? ==> row.otp == Some(otp))
    case _ => false
  }

  /** Between the trip's lock and the driver's: an accept carries the row as it is, a completion as it will be. */
  predicate Carries(cmd: Command, was: Trip, row: Trip, now: Time) {
    if cmd.AcceptTrip? then row == was else cmd.UpdateTrip? && cmd.verb == CompleteRide && Wrote(cmd, was, row, now)
  }

  /** The commit is made: the row is written as the command is to write it, and a completion is counted. */
  ghost predicate Paid(base: State, s: State, p: ProcId, cmd: Command, otp: string) {
    && Entitled(base, cmd) && p in s.procs && s.procs[p].cmd == cmd && s.procs[p].wrote && s.procs[p].pc.AfterCommit?
    && Written(base, s, cmd, otp)
  }

  ghost predicate Written(base: State, s: State, cmd: Command, otp: string)
    requires Entitled(base, cmd)
  {
    && cmd.trip in s.trips && s.trips == base.trips[cmd.trip := s.trips[cmd.trip]]
    && Wrote(cmd, base.trips[cmd.trip], s.trips[cmd.trip], base.now)
    && (cmd.AcceptTrip? ==> s.trips[cmd.trip].otp == Some(otp))
    && (forall d :: d in s.drivers <==> d in base.drivers)
    && (forall d :: d in base.drivers ==> Counted(cmd, d, base.drivers[d], s.drivers[d]))
  }

  /** The driver of a trip that is completed has one more; every other row is as it was. */
  predicate Counted(cmd: Command, d: DriverId, was: Driver, driver: Driver) {
    if cmd.UpdateTrip? && cmd.verb == CompleteRide && cmd.profile == Some(d)
    then driver == was.(totalTrips := was.totalTrips + 1) else driver == was
  }

  lemma DueGoesOn(base: State, s: State, p: ProcId, cmd: Command, otp: string)
    requires Due(base, s, p, cmd, otp)
    ensures var s' := Next(s, Step(p, otp, 0));
      && p in s'.procs && StepsLeft(s'.procs[p].pc) < StepsLeft(s.procs[p].pc)
      && (if s.procs[p].pc.Staged? then Paid(base, s', p, cmd, otp) else Due(base, s', p, cmd, otp))
  {
    hide AcceptStep, UpdateStep, CashStep, TimeOutStep, Entitled, Underfoot, Paid, Next;
    OneOfFour(base, cmd);
    StepIsItsOwn(s, p, otp, cmd);
    match cmd {
      case AcceptTrip(_, _, _) => AcceptGoesOn(base, s, p, cmd, otp);
      case UpdateTrip(_, _, _, _, _) => UpdateGoesOn(base, s, p, cmd, otp);
      case ConfirmCash(_, _, _) => CashGoesOn(base, s, p, cmd, otp);
      case TimeOutTrip(_) => TimeOutGoesOn(base, s, p, cmd, otp);
      case _ =>
    }
  }

  lemma OneOfFour(base: State, cmd: Command)
    requires Entitled(base, cmd)
    ensures cmd.AcceptTrip? || cmd.UpdateTrip? || cmd.ConfirmCash? || cmd.TimeOutTrip?
  {
  }

  lemma StepIsItsOwn(s: State, p: ProcId, otp: string, cmd: Command)
    requires p in s.procs && s.procs[p].cmd == cmd
    ensures cmd.AcceptTrip? ==> Next(s, Step(p, otp, 0)) == AcceptStep(s, p, otp)
    ensures cmd.UpdateTrip? ==> Next(s, Step(p, otp, 0)) == UpdateStep(s, p)
    ensures cmd.ConfirmCash? ==> Next(s, Step(p, otp, 0)) == CashStep(s, p)
    ensures cmd.TimeOutTrip? ==> Next(s, Step(p, otp, 0)) == TimeOutStep(s, p)
  {
    hide AcceptStep, UpdateStep, CashStep, TimeOutStep;
  }

  lemma AcceptGoesOn(base: State, s: State, p: ProcId, cmd: Command, otp: string)
    requires Due(base, s, p, cmd, otp) && cmd.AcceptTrip?
    ensures var s' := AcceptStep(s, p, otp);
      && p in s'.procs && StepsLeft(s'.procs[p].pc) < StepsLeft(s.procs[p].pc)
      && (if s.procs[p].pc.Staged? then Paid(base, s', p, cmd, otp) else Due(base, s', p, cmd, otp))
  {
    hide AcceptStep, Underfoot, Entitled, Paid;
    if s.procs[p].pc.Staged? {
      AcceptCommits(base, s, p, cmd, otp);
    } else if s.procs[p].pc.HaveDriver? {
      AcceptClears(base, s, p, cmd, otp);
    } else if s.procs[p].pc.Cleared? {
      AcceptStages(base, s, p, cmd, otp);
    } else {
      AcceptLocks(base, s, p, cmd, otp);
    }
  }

  lemma AcceptCommits(base: State, s: State, p: ProcId, cmd: Command, otp: string)
    requires Due(base, s, p, cmd, otp) && cmd.AcceptTrip? && s.procs[p].pc.Staged?
    ensures var s' := AcceptStep(s, p, otp);
      && p in s'.procs && StepsLeft(s'.procs[p].pc) < StepsLeft(s.procs[p].pc)
      && (if s.procs[p].pc.Staged? then Paid(base, s', p, cmd, otp) else Due(base, s', p, cmd, otp))
  {
    hide MovesOnly, OnlyProc, Wrote, Busy, Unfit, Taken, Eligible, OnAnotherTrip;
  }

  lemma AcceptClears(base: State, s: State, p: ProcId, cmd: Command, otp: string)
    requires Due(base, s, p, cmd, otp) && cmd.AcceptTrip? && s.procs[p].pc.HaveDriver?
    ensures var s' := AcceptStep(s, p, otp);
      && p in s'.procs && StepsLeft(s'.procs[p].pc) < StepsLeft(s.procs[p].pc)
      && (if s.procs[p].pc.Staged? then Paid(base, s', p, cmd, otp) else Due(base, s', p, cmd, otp))
  {
    hide MovesOnly, OnlyProc, Wrote, Busy, Unfit, Taken, Eligible, OnAnotherTrip;
    AcceptNotUnfit(base, s, cmd);
    FitAndFree(s, cmd.profile.value, cmd.trip);
  }

  lemma AcceptStages(base: State, s: State, p: ProcId, cmd: Command, otp: string)
    requires Due(base, s, p, cmd, otp) && cmd.AcceptTrip? && s.procs[p].pc.Cleared?
    ensures var s' := AcceptStep(s, p, otp);
      && p in s'.procs && StepsLeft(s'.procs[p].pc) < StepsLeft(s.procs[p].pc)
      && (if s.procs[p].pc.Staged? then Paid(base, s', p, cmd, otp) else Due(base, s', p, cmd, otp))
  {
    hide MovesOnly, OnlyProc, Busy, Unfit, Eligible, OnAnotherTrip;
  }

  lemma AcceptLocks(base: State, s: State, p: ProcId, cmd: Command, otp: string)
    requires Due(base, s, p, cmd, otp) && cmd.AcceptTrip? && !s.procs[p].pc.Staged?
      && !s.procs[p].pc.HaveDriver? && !s.procs[p].pc.Cleared?
    ensures var s' := AcceptStep(s, p, otp);
      && p in s'.procs && StepsLeft(s'.procs[p].pc) < StepsLeft(s.procs[p].pc)
      && (if s.procs[p].pc.Staged? then Paid(base, s', p, cmd, otp) else Due(base, s', p, cmd, otp))
  {
    hide MovesOnly, OnlyProc, Wrote, Busy, Eligible, OnAnotherTrip;
  }

  lemma FitAndFree(s: State, d: DriverId, t: TripId)
    requires d in s.drivers && !Unfit(s, d) && !Busy(s, d, t)
    ensures Eligible(s.drivers[d], s.now) && !OnAnotherTrip(s.trips, d, t)
  {
    FitIsEligible(s, d);
    BusyIsOnAnother(s, d, t);
  }

  lemma AcceptNotUnfit(base: State, s: State, cmd: Command)
    requires Entitled(base, cmd) && cmd.AcceptTrip? && s.trips == base.trips && s.drivers == base.drivers
      && s.now == base.now
    ensures cmd.profile.Some? && cmd.profile.value in s.drivers && !Unfit(s, cmd.profile.value)
      && !Busy(s, cmd.profile.value, cmd.trip)
  {
  }

  lemma UpdateGoesOn(base: State, s: State, p: ProcId, cmd: Command, otp: string)
    requires Due(base, s, p, cmd, otp) && cmd.UpdateTrip?
    ensures var s' := UpdateStep(s, p);
      && p in s'.procs && StepsLeft(s'.procs[p].pc) < StepsLeft(s.procs[p].pc)
      && (if s.procs[p].pc.Staged? then Paid(base, s', p, cmd, otp) else Due(base, s', p, cmd, otp))
  {
    hide UpdateStep, Underfoot, Entitled, Paid;
    if s.procs[p].pc.Staged? {
      UpdateCommits(base, s, p, cmd, otp);
    } else if s.procs[p].pc.HaveTrip? {
      UpdateDecides(base, s, p, cmd, otp);
    } else {
      UpdateLocks(base, s, p, cmd, otp);
    }
  }

  lemma UpdateCommits(base: State, s: State, p: ProcId, cmd: Command, otp: string)
    requires Due(base, s, p, cmd, otp) && cmd.UpdateTrip? && s.procs[p].pc.Staged?
    ensures var s' := UpdateStep(s, p);
      && p in s'.procs && StepsLeft(s'.procs[p].pc) < StepsLeft(s.procs[p].pc)
      && (if s.procs[p].pc.Staged? then Paid(base, s', p, cmd, otp) else Due(base, s', p, cmd, otp))
  {
    hide MovesOnly, OnlyProc;
  }

  lemma UpdateDecides(base: State, s: State, p: ProcId, cmd: Command, otp: string)
    requires Due(base, s, p, cmd, otp) && cmd.UpdateTrip? && s.procs[p].pc.HaveTrip?
    ensures var s' := UpdateStep(s, p);
      && p in s'.procs && StepsLeft(s'.procs[p].pc) < StepsLeft(s.procs[p].pc)
      && (if s.procs[p].pc.Staged? then Paid(base, s', p, cmd, otp) else Due(base, s', p, cmd, otp))
  {
    hide MovesOnly, OnlyProc, IsRiderOf, IsDriverOf, Release;
  }

  lemma UpdateLocks(base: State, s: State, p: ProcId, cmd: Command, otp: string)
    requires Due(base, s, p, cmd, otp) && cmd.UpdateTrip? && !s.procs[p].pc.Staged? && !s.procs[p].pc.HaveTrip?
    ensures var s' := UpdateStep(s, p);
      && p in s'.procs && StepsLeft(s'.procs[p].pc) < StepsLeft(s.procs[p].pc)
      && (if s.procs[p].pc.Staged? then Paid(base, s', p, cmd, otp) else Due(base, s', p, cmd, otp))
  {
    hide UpdateStep, Underfoot, Entitled, Paid;
    if s.procs[p].pc.WantDriver? || s.procs[p].pc.HaveDriver? {
      UpdateLocksDriver(base, s, p, cmd, otp);
    } else {
      UpdateLocksTrip(base, s, p, cmd, otp);
    }
  }

  lemma UpdateLocksTrip(base: State, s: State, p: ProcId, cmd: Command, otp: string)
    requires Due(base, s, p, cmd, otp) && cmd.UpdateTrip? && !s.procs[p].pc.Staged? && !s.procs[p].pc.HaveTrip?
    requires !s.procs[p].pc.WantDriver? && !s.procs[p].pc.HaveDriver?
    ensures var s' := UpdateStep(s, p);
      && p in s'.procs && StepsLeft(s'.procs[p].pc) < StepsLeft(s.procs[p].pc)
      && (if s.procs[p].pc.Staged? then Paid(base, s', p, cmd, otp) else Due(base, s', p, cmd, otp))
  {
    hide MovesOnly, OnlyProc, MayMove, Decide, Release, AdvanceRow, Wrote, Carries;
  }

  lemma UpdateLocksDriver(base: State, s: State, p: ProcId, cmd: Command, otp: string)
    requires Due(base, s, p, cmd, otp) && cmd.UpdateTrip? && (s.procs[p].pc.WantDriver? || s.procs[p].pc.HaveDriver?)
    ensures var s' := UpdateStep(s, p);
      && p in s'.procs && StepsLeft(s'.procs[p].pc) < StepsLeft(s.procs[p].pc)
      && (if s.procs[p].pc.Staged? then Paid(base, s', p, cmd, otp) else Due(base, s', p, cmd, otp))
  {
    hide MovesOnly, OnlyProc, MayMove, Decide, Release, AdvanceRow;
  }

  lemma CashGoesOn(base: State, s: State, p: ProcId, cmd: Command, otp: string)
    requires Due(base, s, p, cmd, otp) && cmd.ConfirmCash?
    ensures var s' := CashStep(s, p);
      && p in s'.procs && StepsLeft(s'.procs[p].pc) < StepsLeft(s.procs[p].pc)
      && (if s.procs[p].pc.Staged? then Paid(base, s', p, cmd, otp) else Due(base, s', p, cmd, otp))
  {
    hide CashStep, Underfoot, Entitled, Paid;
    if s.procs[p].pc.Staged? {
      CashCommits(base, s, p, cmd, otp);
    } else {
      CashLocks(base, s, p, cmd, otp);
    }
  }

  lemma CashCommits(base: State, s: State, p: ProcId, cmd: Command, otp: string)
    requires Due(base, s, p, cmd, otp) && cmd.ConfirmCash? && s.procs[p].pc.Staged?
    ensures var s' := CashStep(s, p);
      && p in s'.procs && StepsLeft(s'.procs[p].pc) < StepsLeft(s.procs[p].pc)
      && (if s.procs[p].pc.Staged? then Paid(base, s', p, cmd, otp) else Due(base, s', p, cmd, otp))
  {
    hide MovesOnly, OnlyProc;
  }

  lemma CashLocks(base: State, s: State, p: ProcId, cmd: Command, otp: string)
    requires Due(base, s, p, cmd, otp) && cmd.ConfirmCash? && !s.procs[p].pc.Staged?
    ensures var s' := CashStep(s, p);
      && p in s'.procs && StepsLeft(s'.procs[p].pc) < StepsLeft(s.procs[p].pc)
      && (if s.procs[p].pc.Staged? then Paid(base, s', p, cmd, otp) else Due(base, s', p, cmd, otp))
  {
    hide MovesOnly, OnlyProc, Release;
  }

  lemma TimeOutGoesOn(base: State, s: State, p: ProcId, cmd: Command, otp: string)
    requires Due(base, s, p, cmd, otp) && cmd.TimeOutTrip?
    ensures var s' := TimeOutStep(s, p);
      && p in s'.procs && StepsLeft(s'.procs[p].pc) < StepsLeft(s.procs[p].pc)
      && (if s.procs[p].pc.Staged? then Paid(base, s', p, cmd, otp) else Due(base, s', p, cmd, otp))
  {
    hide TimeOutStep, Underfoot, Entitled, Paid;
    if s.procs[p].pc.Staged? {
      TimeOutCommits(base, s, p, cmd, otp);
    } else {
      TimeOutLocks(base, s, p, cmd, otp);
    }
  }

  lemma TimeOutCommits(base: State, s: State, p: ProcId, cmd: Command, otp: string)
    requires Due(base, s, p, cmd, otp) && cmd.TimeOutTrip? && s.procs[p].pc.Staged?
    ensures var s' := TimeOutStep(s, p);
      && p in s'.procs && StepsLeft(s'.procs[p].pc) < StepsLeft(s.procs[p].pc)
      && (if s.procs[p].pc.Staged? then Paid(base, s', p, cmd, otp) else Due(base, s', p, cmd, otp))
  {
    hide MovesOnly, OnlyProc;
  }

  lemma TimeOutLocks(base: State, s: State, p: ProcId, cmd: Command, otp: string)
    requires Due(base, s, p, cmd, otp) && cmd.TimeOutTrip? && !s.procs[p].pc.Staged?
    ensures var s' := TimeOutStep(s, p);
      && p in s'.procs && StepsLeft(s'.procs[p].pc) < StepsLeft(s.procs[p].pc)
      && (if s.procs[p].pc.Staged? then Paid(base, s', p, cmd, otp) else Due(base, s', p, cmd, otp))
  {
    hide MovesOnly, OnlyProc, Release;
  }

  /** The status a success of the command names. */
  predicate Concludes(cmd: Command, status: Status) {
    match cmd
    case AcceptTrip(_, _, _) => status == Accepted
    case UpdateTrip(_, _, _, verb, _) => MovesTo(verb, status)
    case ConfirmCash(_, _, _) => status == Completed
    case TimeOutTrip(_) => status == Cancelled
    case _ => false
  }

  predicate OnlyStepsOf(events: seq<Event>, p: ProcId, otp: string) {
    forall e :: e in events ==> e == Step(p, otp, 0)
  }

  lemma RunFirst(s: State, e: Event, rest: seq<Event>)
    ensures Run(s, [e] + rest) == Run(Next(s, e), rest)
  {
    assert [e][..0] == [];
    assert Run(s, [e]) == Next(s, e);
    RunAppend(s, [e], rest);
  }

  lemma {:induction false} GetsToItsCommit(base: State, s: State, p: ProcId, cmd: Command, otp: string)
    returns (events: seq<Event>)
    requires Due(base, s, p, cmd, otp)
    ensures OnlyStepsOf(events, p, otp) && Paid(base, Run(s, events), p, cmd, otp)
    decreases StepsLeft(s.procs[p].pc)
  {
    hide Paid, Next, Entitled, Underfoot;
    DueGoesOn(base, s, p, cmd, otp);
    var e := Step(p, otp, 0);
    var rest := [];
    if !s.procs[p].pc.Staged? {
      rest := GetsToItsCommit(base, Next(s, e), p, cmd, otp);
    }
    events := [e] + rest;
    RunFirst(s, e, rest);
  }

  lemma AnswersAfter(base: State, s: State, p: ProcId, cmd: Command, otp: string)
    requires Paid(base, s, p, cmd, otp)
    ensures var s' := Next(s, Step(p, otp, 0));
      && Written(base, s', cmd, otp)
      && p in s'.procs && s'.procs[p].cmd == cmd && s'.procs[p].wrote
      && s'.procs[p].pc.Done? && s'.procs[p].pc.answer.Committed? && Concludes(cmd, s'.procs[p].pc.answer.status)
      && s'.procs[p].pc.answer.status == s'.trips[cmd.trip].status
  {
    hide MovesOnly, OnlyProc;
  }

  /** Submitted alone, a command that is entitled to its write makes it and says so: an accept of an open trip
      by a fit and free driver, each verb of the trip's driver (or a rider's cancel) from each status it
      moves a trip from, with the trip's code where it starts, a cash confirmation that is due, the
      timeout of a trip nobody took. The row is written as it is to be, every other row is as it was. */
  lemma DoesItsDuty(s: State, p: ProcId, cmd: Command, otp: string) returns (events: seq<Event>)
    requires p !in s.procs && Entitled(s, cmd) && NotHeldUp(s, cmd)
    ensures OnlyStepsOf(events, p, otp)
    ensures var r := Run(s, [Submit(p, cmd)] + events);
      && Written(s, r, cmd, otp)
      && p in r.procs && r.procs[p].wrote
      && r.procs[p].pc.Done? && r.procs[p].pc.answer.Committed?
      && Concludes(cmd, r.procs[p].pc.answer.status) && r.procs[p].pc.answer.status == r.trips[cmd.trip].status
  {
    hide Next, Entitled, Written, Run, NotHeldUp;
    var submit := Submit(p, cmd);
    SubmittedIsDue(s, p, cmd, otp);
    var steps := GetsToItsCommit(s, Next(s, submit), p, cmd, otp);
    AnswersAfter(s, Run(Next(s, submit), steps), p, cmd, otp);
    events := steps + [Step(p, otp, 0)];
    RunLast(Next(s, submit), steps, Step(p, otp, 0));
    RunFirst(s, submit, events);
  }

  lemma RunLast(s: State, events: seq<Event>, e: Event)
    ensures Run(s, events + [e]) == Next(Run(s, events), e)
  {
    assert (events + [e])[..|events + [e]| - 1] == events;
  }

  lemma SubmittedIsDue(s: State, p: ProcId, cmd: Command, otp: string)
    requires p !in s.procs && Entitled(s, cmd) && NotHeldUp(s, cmd)
    ensures Due(s, Next(s, Submit(p, cmd)), p, cmd, otp)
  {
    hide Busy;
  }

  /** May the user's driver still take the trip? */
  predicate MayTake(s: State, cmd: Command)
    requires cmd.AcceptTrip? || cmd.UpdateTrip? || cmd.ConfirmCash?
  {
    && cmd.trip in s.trips && s.trips[cmd.trip].driver.None?
    && (s.trips[cmd.trip].status == Requested || s.trips[cmd.trip].status == NoStatus)
    && cmd.profile.Some? && cmd.profile.value in s.drivers
    && s.drivers[cmd.profile.value].mayOperate && s.drivers[cmd.profile.value].status != Blocked
  }

  /** A socket on a trip is let in for its rider, its driver, or a driver who may still take it, as the stored rows
      say; anybody else's is closed without an answer. Only the first two are in the trip's group. */
  lemma EverySocketIsJudged(s: State, p: ProcId, cmd: Command)
    requires p !in s.procs && (cmd.AcceptTrip? || cmd.UpdateTrip? || cmd.ConfirmCash?)
    ensures var s' := Next(s, Submit(p, cmd)); p in s'.procs && s' == s.(procs := s.procs[p := s'.procs[p]])
    ensures var pr := Next(s, Submit(p, cmd)).procs[p];
      && pr.cmd == cmd && !pr.wrote && (pr.subscribed <==> IsRiderOf(s, cmd) || IsDriverOf(s, cmd))
      && pr.pc == (if IsRiderOf(s, cmd) || IsDriverOf(s, cmd) || MayTake(s, cmd) then Begin else Done(NoAnswer))
    ensures var pr := Next(s, Submit(p, cmd)).procs[p];
      && (pr.participation == RiderPart <==> IsRiderOf(s, cmd))
      && (pr.participation == AssignedDriverPart <==> !IsRiderOf(s, cmd) && IsDriverOf(s, cmd))
      && (pr.participation == CandidateDriverPart <==> !IsRiderOf(s, cmd) && MayTake(s, cmd))
  {
  }

  /** In every run: an accept acknowledged as committed has joined the trip's group, as its driver. */
  lemma {:induction false} EveryAcceptJoins(s: State, events: seq<Event>, p: ProcId)
    requires Initial(s) && p in Run(s, events).procs
    requires var pr := Run(s, events).procs[p]; pr.cmd.AcceptTrip? && pr.pc == Done(Committed(Accepted))
    ensures var pr := Run(s, events).procs[p]; pr.subscribed && pr.participation == AssignedDriverPart
  {
    hide Next;
    if events != [] {
      var r, e := Run(s, events[..|events| - 1]), events[|events| - 1];
      if p in r.procs && r.procs[p].pc.Done? {
        AnswersAreFinal(r, e, p);
        EveryAcceptJoins(s, events[..|events| - 1], p);
      } else {
        JoinsAtLast(r, e, p);
      }
    }
  }

  lemma JoinsAtLast(r: State, e: Event, p: ProcId)
    requires p in r.procs ==> !r.procs[p].pc.Done?
    requires p in Next(r, e).procs
    requires var pr := Next(r, e).procs[p]; pr.cmd.AcceptTrip? && pr.pc == Done(Committed(Accepted))
    ensures var pr := Next(r, e).procs[p]; pr.subscribed && pr.participation == AssignedDriverPart
  {
    hide ProcStep, Resolve;
    if e.Step? && e.p in r.procs {
      CommandStays(r, e.p, e.otp, e.newTrip);
      if e.p == p {
        JoinsByStep(r, p, e.otp, e.newTrip);
      }
    }
  }

  lemma JoinsByStep(s: State, p: ProcId, otp: string, newTrip: TripId)
    requires p in s.procs && s.procs[p].cmd.AcceptTrip? && !s.procs[p].pc.Done?
    requires ProcStep(s, p, otp, newTrip).procs[p].pc == Done(Committed(Accepted))
    ensures var pr := ProcStep(s, p, otp, newTrip).procs[p];
      pr.subscribed && pr.participation == AssignedDriverPart
  {
    hide Eligible, OnAnotherTrip, AcceptRow, Release;
  }

  lemma CommandStays(s: State, p: ProcId, otp: string, newTrip: TripId)
    requires p in s.procs
    ensures ProcStep(s, p, otp, newTrip).procs[p].cmd == s.procs[p].cmd
  {
    hide AcceptStep, UpdateStep, CashStep, TimeoutRow, NewTrip, Count;
    if s.procs[p].cmd.AcceptTrip? {
      AcceptStays(s, p, otp);
    } else if s.procs[p].cmd.UpdateTrip? {
      UpdateStays(s, p);
    } else if s.procs[p].cmd.ConfirmCash? {
      CashStays(s, p);
    }
  }

  lemma AcceptStays(s: State, p: ProcId, otp: string)
    requires p in s.procs && s.procs[p].cmd.AcceptTrip?
    ensures AcceptStep(s, p, otp).procs[p].cmd == s.procs[p].cmd
  {
    hide Eligible, OnAnotherTrip, AcceptRow, Count;
  }

  lemma UpdateStays(s: State, p: ProcId)
    requires p in s.procs && s.procs[p].cmd.UpdateTrip?
    ensures UpdateStep(s, p).procs[p].cmd == s.procs[p].cmd
  {
    hide Refusal, Decide, AdvanceRow, Count;
  }

  lemma CashStays(s: State, p: ProcId)
    requires p in s.procs && s.procs[p].cmd.ConfirmCash?
    ensures CashStep(s, p).procs[p].cmd == s.procs[p].cmd
  {
    hide Refusal, DecideCash, CashRow, Count;
  }

  // ---- A booking and a toggle alone ------------------------------------------------------------------------

  /** A call that submits and takes up to four steps. */
  lemma RunSteps(s: State, submit: Event, e: Event)
    ensures Run(s, [submit, e]) == Next(Next(s, submit), e)
    ensures Run(s, [submit, e, e, e]) == Next(Next(Run(s, [submit, e]), e), e)
    ensures Run(s, [submit, e, e, e, e]) == Next(Run(s, [submit, e, e, e]), e)
  {
    var one := Next(Next(s, submit), e);
    assert [submit, e] == [submit] + ([e] + []);
    RunFirst(s, submit, [e] + []);
    RunFirst(Next(s, submit), e, []);
    assert [submit, e, e] == [submit, e] + [e];
    RunLast(s, [submit, e], e);
    assert [submit, e, e, e] == [submit, e, e] + [e];
    RunLast(s, [submit, e, e], e);
    assert [submit, e, e, e, e] == [submit, e, e, e] + [e];
    RunLast(s, [submit, e, e, e], e);
  }

  /** Alone, a booking under a key the rider has booked with answers with that trip and adds nothing; any other
      adds the trip it answers with, spelled out, under the id the database gives it. */
  lemma BooksAlone(s: State, p: ProcId, cmd: Command, newTrip: TripId)
    requires p !in s.procs && cmd.BookTrip? && newTrip !in s.trips
    ensures (exists t :: IsBooking(s, t, cmd)) ==>
      var r := Run(s, [Submit(p, cmd), Step(p, "", newTrip)]);
      && r.trips == s.trips && p in r.procs && r.procs[p].pc.Done? && r.procs[p].pc.answer.Booked?
      && r.procs[p].pc.answer.reused && IsBooking(s, r.procs[p].pc.answer.trip, cmd)
    ensures !(exists t :: IsBooking(s, t, cmd)) ==>
      var e := Step(p, "", newTrip);
      var r := Run(s, [Submit(p, cmd), e, e, e]);
      && p in r.procs && r.procs[p].pc == Done(Booked(newTrip, false))
      && newTrip in r.trips && r.trips == s.trips[newTrip := r.trips[newTrip]] && Booking(cmd, p, r.trips[newTrip])
  {
    hide Next, Run, Booking;
    var e := Step(p, "", newTrip);
    RunSteps(s, Submit(p, cmd), e);
    var one := Next(s, Submit(p, cmd));
    BookBegins(s, p, cmd, newTrip);
    if !(exists t :: IsBooking(s, t, cmd)) {
      assert forall t :: IsBooking(Next(one, e), t, cmd) <==> IsBooking(s, t, cmd);
      BookInserts(Next(one, e), p, cmd, newTrip);
      BookAnswers(Next(Next(one, e), e), p, newTrip);
    }
  }

  lemma BookBegins(s: State, p: ProcId, cmd: Command, newTrip: TripId)
    requires p !in s.procs && cmd.BookTrip?
    ensures var r := Next(Next(s, Submit(p, cmd)), Step(p, "", newTrip));
      && r.trips == s.trips && p in r.procs && r.procs[p].cmd == cmd
      && if exists t :: IsBooking(s, t, cmd) then
           r.procs[p].pc.Done? && r.procs[p].pc.answer.Booked?
           && r.procs[p].pc.answer.reused && IsBooking(s, r.procs[p].pc.answer.trip, cmd)
         else r.procs[p].pc == Pricing
  {
    hide MovesOnly, OnlyProc;
    var one := Next(s, Submit(p, cmd));
    assert one.trips == s.trips && one.procs[p].cmd == cmd && one.procs[p].pc == Begin;
    assert Next(one, Step(p, "", newTrip)) == BookStep(one, p, newTrip);
    HasBookingIs(one, cmd);
    assert forall t :: IsBooking(one, t, cmd) <==> IsBooking(s, t, cmd);
  }

  lemma HasBookingIs(s: State, cmd: Command)
    requires cmd.BookTrip?
    ensures HasBooking(s.trips, cmd.user, cmd.key) <==> exists t :: IsBooking(s, t, cmd)
    ensures HasBooking(s.trips, cmd.user, cmd.key) ==> IsBooking(s, FindBooking(s.trips, cmd.user, cmd.key), cmd)
  {
    if t :| IsBooking(s, t, cmd) {
      assert Matches(s.trips[t], cmd.user, cmd.key);
    }
    if HasBooking(s.trips, cmd.user, cmd.key) {
      assert IsBooking(s, FindBooking(s.trips, cmd.user, cmd.key), cmd);
    }
  }

  lemma BookInserts(s: State, p: ProcId, cmd: Command, newTrip: TripId)
    requires p in s.procs && s.procs[p].cmd == cmd && cmd.BookTrip? && s.procs[p].pc == Pricing && newTrip !in s.trips
    requires !(exists t :: IsBooking(s, t, cmd))
    ensures var r := Next(s, Step(p, "", newTrip));
      && p in r.procs && r.procs[p].cmd == cmd && r.procs[p].pc == AfterInsert(newTrip)
      && newTrip in r.trips && r.trips == s.trips[newTrip := r.trips[newTrip]] && Booking(cmd, p, r.trips[newTrip])
  {
    hide MovesOnly, OnlyProc, HasBooking;
    HasBookingIs(s, cmd);
    assert Next(s, Step(p, "", newTrip)) == BookStep(s, p, newTrip);
  }

  lemma BookAnswers(s: State, p: ProcId, newTrip: TripId)
    requires p in s.procs && s.procs[p].cmd.BookTrip? && s.procs[p].pc == AfterInsert(newTrip)
    ensures var r := Next(s, Step(p, "", newTrip));
      p in r.procs && r.procs[p].pc == Done(Booked(newTrip, false)) && r.trips == s.trips
  {
    hide MovesOnly, OnlyProc, HasBooking;
    assert Next(s, Step(p, "", newTrip)) == BookStep(s, p, newTrip);
  }

  /** Alone, a driver who may operate, is not locked out and is under the cap goes online; going offline leaves a
      blocked driver blocked and takes any other off. */
  lemma TogglesAlone(s: State, p: ProcId, cmd: Command, d: DriverId)
    requires p !in s.procs && (cmd == GoOnline(d) || cmd == GoOffline(d)) && d in s.drivers && d !in s.driverLock
    requires cmd.GoOnline? ==> s.drivers[d].mayOperate && s.drivers[d].lockedUntil <= s.now && !s.drivers[d].overCap
    ensures var e := Step(p, "", 0);
      var r := Run(s, if cmd.GoOnline? then [Submit(p, cmd), e, e, e, e] else [Submit(p, cmd), e, e, e]);
      && p in r.procs && r.procs[p].pc == Done(Toggled(true)) && r.trips == s.trips
      && d in r.drivers && r.drivers == s.drivers[d := r.drivers[d]]
      && (cmd.GoOnline? ==> r.drivers[d] == s.drivers[d].(status := Online))
      && (cmd.GoOffline? && s.drivers[d].status != Blocked ==> r.drivers[d] == s.drivers[d].(status := Off))
      && (cmd.GoOffline? && s.drivers[d].status == Blocked ==> r.drivers[d] == s.drivers[d])
  {
    hide Next, Run;
    var e := Step(p, "", 0);
    RunSteps(s, Submit(p, cmd), e);
    var one := Next(s, Submit(p, cmd));
    ToggleBegins(s, p, cmd, d);
    var two := Next(one, e);
    if cmd.GoOnline? {
      ToggleLooks(two, p, d);
      ToggleSaves(Next(two, e), p, cmd, d);
      ToggleAnswers(Next(Next(two, e), e), p);
    } else {
      ToggleSaves(two, p, cmd, d);
      ToggleAnswers(Next(two, e), p);
    }
  }

  lemma ToggleBegins(s: State, p: ProcId, cmd: Command, d: DriverId)
    requires p !in s.procs && (cmd == GoOnline(d) || cmd == GoOffline(d)) && d in s.drivers
    requires cmd.GoOnline? ==> s.drivers[d].mayOperate
    ensures var r := Next(Next(s, Submit(p, cmd)), Step(p, "", 0));
      && r.trips == s.trips && r.drivers == s.drivers && r.driverLock == s.driverLock && r.now == s.now
      && p in r.procs && r.procs[p].cmd == cmd
      && r.procs[p].pc == if cmd.GoOnline? then Loaded(s.drivers[d]) else Saving
  {
    hide MovesOnly, OnlyProc;
    var one := Next(s, Submit(p, cmd));
    assert Next(one, Step(p, "", 0)) == ToggleStep(one, p);
  }

  lemma ToggleLooks(s: State, p: ProcId, d: DriverId)
    requires p in s.procs && s.procs[p].cmd == GoOnline(d) && d in s.drivers && s.procs[p].pc == Loaded(s.drivers[d])
    requires s.drivers[d].lockedUntil <= s.now && !s.drivers[d].overCap
    ensures var r := Next(s, Step(p, "", 0));
      && r.trips == s.trips && r.drivers == s.drivers && r.driverLock == s.driverLock
      && p in r.procs && r.procs[p].cmd == GoOnline(d) && r.procs[p].pc == Saving
  {
    hide MovesOnly, OnlyProc;
    assert Next(s, Step(p, "", 0)) == ToggleStep(s, p);
  }

  lemma ToggleSaves(s: State, p: ProcId, cmd: Command, d: DriverId)
    requires p in s.procs && s.procs[p].cmd == cmd && (cmd == GoOnline(d) || cmd == GoOffline(d))
    requires s.procs[p].pc == Saving && d in s.drivers && d !in s.driverLock
    ensures var r := Next(s, Step(p, "", 0));
      && p in r.procs && r.procs[p].cmd == cmd && r.procs[p].pc == Saved && r.trips == s.trips
      && d in r.drivers && r.drivers == s.drivers[d := r.drivers[d]]
      && (cmd.GoOnline? ==> r.drivers[d] == s.drivers[d].(status := Online))
      && (cmd.GoOffline? && s.drivers[d].status != Blocked ==> r.drivers[d] == s.drivers[d].(status := Off))
      && (cmd.GoOffline? && s.drivers[d].status == Blocked ==> r.drivers[d] == s.drivers[d])
  {
    hide MovesOnly, OnlyProc;
    assert Next(s, Step(p, "", 0)) == ToggleStep(s, p);
    assert s.drivers == s.drivers[d := s.drivers[d]];
  }

  lemma ToggleAnswers(s: State, p: ProcId)
    requires p in s.procs && (s.procs[p].cmd.GoOnline? || s.procs[p].cmd.GoOffline?) && s.procs[p].pc == Saved
    ensures var r := Next(s, Step(p, "", 0));
      p in r.procs && r.procs[p].pc == Done(Toggled(true)) && r.trips == s.trips && r.drivers == s.drivers
  {
    hide MovesOnly, OnlyProc;
    assert Next(s, Step(p, "", 0)) == ToggleStep(s, p);
  }
}
