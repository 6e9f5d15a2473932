/** The invariant of the trip protocol and its preservation by every scheduler decision. */
module TripInvariant {
  import opened TripRows
  import opened TripProtocol

  // ---- The invariant ---------------------------------------------------------------------------

  /** The lock tables name open transactions that really hold the row. */
  ghost predicate LocksOk(s: State) {
    && (forall t :: t in s.tripLock ==>
          s.tripLock[t] in s.procs && HoldsTrip(s.procs[s.tripLock[t]]) && s.procs[s.tripLock[t]].cmd.trip == t)
    && (forall d :: d in s.driverLock ==>
          s.driverLock[d] in s.procs && HoldsDriver(s.procs[s.driverLock[d]])
          && DriverWanted(s.procs[s.driverLock[d]]) == Some(d))
  }

  ghost predicate RowsOk(s: State) {
    forall t :: t in s.trips ==>
      RowOk(s.trips[t], s.now) && (s.trips[t].driver.Some? ==> s.trips[t].driver.value in s.drivers)
  }

  /** Every other trip of driver `d` was over by `at`. */
  ghost predicate FreeBy(trips: map<TripId, Trip>, d: DriverId, except: TripId, at: Time) {
    forall u :: u in trips && u != except && trips[u].driver == Some(d) ==>
      EndOf(trips[u]).Some? && EndOf(trips[u]).value <= at
  }

  predicate StampOk(row: Trip, at: Time, now: Time) {
    at <= now && (row.acceptedAt.Some? ==> row.acceptedAt.value <= at)
  }

  /** The copies an accept carries match the stored row, and from `Cleared` on its driver is free. */
  ghost predicate AcceptOk(s: State, pr: Proc)
    requires pr.cmd.AcceptTrip?
  {
    var t := pr.cmd.trip;
    var profile := pr.cmd.profile;
    match pr.pc
    case Begin => true
    case WantTrip => profile.Some?
    case HaveTrip(row) => profile.Some? && t in s.trips && row == s.trips[t]
    case WantDriver(row, _) => profile.Some? && profile.value in s.drivers && t in s.trips && row == s.trips[t]
        && Open(row)
    case HaveDriver(row, _) => profile.Some? && profile.value in s.drivers && t in s.trips && row == s.trips[t]
        && Open(row)
    case Cleared(row) =>
      && profile.Some? && profile.value in s.drivers && t in s.trips && row == s.trips[t] && Open(row)
      && InGoodStanding(s.drivers[profile.value], s.now) && FreeBy(s.trips, profile.value, t, s.now)
    case Staged(row, at) =>
      && profile.Some? && profile.value in s.drivers && t in s.trips && Open(s.trips[t]) && at <= s.now
      && row.otp.Some? && row == AcceptRow(s.trips[t], profile.value, row.otp.value, at)
      && InGoodStanding(s.drivers[profile.value], s.now) && FreeBy(s.trips, profile.value, t, at)
    case AfterCommit => profile.Some? && t in s.trips && s.trips[t].driver == profile
        && Reach(Accepted, s.trips[t].status)
    case Done(Committed(st)) =>
      st == Accepted && profile.Some? && t in s.trips && s.trips[t].driver == profile
          && Reach(Accepted, s.trips[t].status)
    case Done(AlreadyDone(_)) => false
    case Done(_) => true
    case _ => false
  }

  /** An update that got past its unlocked authorisation check is still authorised, and the row it
      has staged is the stored row moved one allowed transition. */
  ghost predicate UpdateOk(s: State, pr: Proc)
    requires pr.cmd.UpdateTrip?
  {
    var t := pr.cmd.trip;
    var target := Target(pr.cmd.verb);
    match pr.pc
    case Begin => true
    case WantTrip => Refusal(s, pr.cmd).None?
    case HaveTrip(row) => t in s.trips && row == s.trips[t] && Refusal(s, pr.cmd).None?
    case WantDriver(row, at) => UpdateStaged(s, pr.cmd, row, at) && target == Completed && row.driver.Some?
    case HaveDriver(row, at) => UpdateStaged(s, pr.cmd, row, at) && target == Completed && row.driver.Some?
    case Staged(row, at) => UpdateStaged(s, pr.cmd, row, at)
    case AfterCommit => t in s.trips && Reach(target, s.trips[t].status) && Refusal(s, pr.cmd).None?
    case Done(Committed(st)) => st == target && t in s.trips && Reach(st, s.trips[t].status) && Refusal(s, pr.cmd).None?
    case Done(AlreadyDone(st)) => st == target && t in s.trips && Reach(st, s.trips[t].status)
        && Refusal(s, pr.cmd).None?
    case Done(_) => true
    case _ => false
  }

  ghost predicate UpdateStaged(s: State, cmd: Command, row: Trip, at: Time)
    requires cmd.UpdateTrip?
  {
    && cmd.trip in s.trips && Refusal(s, cmd).None?
    && Allowed(s.trips[cmd.trip].status, Target(cmd.verb))
    && (Target(cmd.verb) == InProgress ==> OtpText(s.trips[cmd.trip].otp) == cmd.otp)
    && StampOk(s.trips[cmd.trip], at, s.now)
    && row == AdvanceRow(s.trips[cmd.trip], Target(cmd.verb), CancellerOf(s.trips[cmd.trip], cmd.user), at)
  }

  ghost predicate CashOk(s: State, pr: Proc)
    requires pr.cmd.ConfirmCash?
  {
    var t := pr.cmd.trip;
    match pr.pc
    case Begin => true
    case WantTrip => Refusal(s, pr.cmd).None?
    case HaveTrip(row) => t in s.trips && row == s.trips[t] && Refusal(s, pr.cmd).None?
    case Staged(row, _) =>
      t in s.trips && DecideCash(s.trips[t]).Proceed? && row == CashRow(s.trips[t]) && Refusal(s, pr.cmd).None?
    case AfterCommit => t in s.trips && s.trips[t].status == Completed && s.trips[t].cash == CashPaid
    case Done(Committed(st)) => st == Completed && t in s.trips && s.trips[t].status == Completed
        && s.trips[t].cash == CashPaid
    case Done(AlreadyDone(_)) => false
    case Done(_) => true
    case _ => false
  }

  ghost predicate TimeOutOk(s: State, pr: Proc)
    requires pr.cmd.TimeOutTrip?
  {
    var t := pr.cmd.trip;
    match pr.pc
    case Begin => true
    case WantTrip => true
    case HaveTrip(row) => t in s.trips && row == s.trips[t]
    case Staged(row, at) => t in s.trips && Open(s.trips[t]) && at <= s.now && row == TimeoutRow(s.trips[t], at)
    case AfterCommit => t in s.trips && s.trips[t].status == Cancelled
    case Done(Committed(st)) => st == Cancelled && t in s.trips && s.trips[t].status == Cancelled
    case Done(AlreadyDone(_)) => false
    case Done(_) => true
    case _ => false
  }

  /** A booking call answers with a trip of its own rider and key; if it says the trip is new, it
      is the one call that inserted it. */
  ghost predicate BookOk(s: State, p: ProcId, pr: Proc)
    requires pr.cmd.BookTrip?
  {
    match pr.pc
    case Begin => true
    case Pricing => true
    case AfterInsert(t) => BookedBy(s, pr.cmd, t) && s.trips[t].creator == p
    case Done(Booked(t, reused)) => BookedBy(s, pr.cmd, t) && (!reused ==> s.trips[t].creator == p)
    case Done(_) => true
    case _ => false
  }

  ghost predicate BookedBy(s: State, cmd: Command, t: TripId)
    requires cmd.BookTrip?
  {
    t in s.trips && s.trips[t].rider == cmd.user && s.trips[t].requestKey == cmd.key
  }

  ghost predicate PcOk(s: State, p: ProcId, pr: Proc) {
    match pr.cmd
    case AcceptTrip(_, _, _) => AcceptOk(s, pr)
    case UpdateTrip(_, _, _, _, _) => UpdateOk(s, pr)
    case ConfirmCash(_, _, _) => CashOk(s, pr)
    case TimeOutTrip(_) => TimeOutOk(s, pr)
    case BookTrip(_, _, _) => BookOk(s, p, pr)
    case GoOnline(d) => pr.pc.Begin? || ((pr.pc.Loaded? || pr.pc.Saving? || pr.pc.Saved?) && d in s.drivers)
        || pr.pc.Done?
    case GoOffline(d) => pr.pc.Begin? || ((pr.pc.Saving? || pr.pc.Saved?) && d in s.drivers) || pr.pc.Done?
  }

  /** What the answer says about writing: nothing is written before the commit, a refusal with a
      reason code and an `already_done` wrote nothing, and `committed` on a command that moves the
      status, or a success of going online, means this very call wrote. */
  predicate WroteOk(pr: Proc) {
    match pr.pc
    case AfterCommit => pr.cmd.ConfirmCash? || pr.wrote
    case AfterInsert(_) => pr.wrote
    case Done(Committed(_)) => pr.cmd.ConfirmCash? || pr.wrote
    case Done(AlreadyDone(_)) => !pr.wrote
    case Done(Rejected(reason)) => (reason != Plain ==> !pr.wrote) && reason != TripAlreadyCompleted
    case Done(Booked(_, reused)) => reused <==> !pr.wrote
    case Saved => pr.cmd.GoOnline? ==> pr.wrote
    case Done(Toggled(ok)) => ok && pr.cmd.GoOnline? ==> pr.wrote
    case Done(_) => true
    case _ => !pr.wrote
  }

  /** Only the rider and the assigned driver are ever in the trip group. */
  ghost predicate SubscribedOk(s: State, pr: Proc) {
    pr.subscribed ==>
      && (pr.cmd.AcceptTrip? || pr.cmd.UpdateTrip? || pr.cmd.ConfirmCash?)
      && pr.cmd.trip in s.trips
      && (s.trips[pr.cmd.trip].rider == pr.cmd.user || IsAssigned(s.trips[pr.cmd.trip], pr.cmd.profile))
  }

  ghost predicate HoldsOk(s: State, p: ProcId, pr: Proc) {
    && (HoldsTrip(pr) ==> pr.cmd.trip in s.tripLock && s.tripLock[pr.cmd.trip] == p)
    && (HoldsDriver(pr) ==> DriverWanted(pr).value in s.driverLock && s.driverLock[DriverWanted(pr).value] == p)
  }

  ghost predicate ProcOk(s: State, p: ProcId)
    requires p in s.procs
  {
    && HoldsOk(s, p, s.procs[p])
    && PcOk(s, p, s.procs[p])
    && WroteOk(s.procs[p])
    && SubscribedOk(s, s.procs[p])
  }

  ghost predicate Inv(s: State) {
    && LocksOk(s)
    && RowsOk(s)
    && DriversApart(s.trips)
    && KeysUnique(s.trips)
    && (forall p :: p in s.procs ==> ProcOk(s, p))
  }

  lemma InvProc(s: State, p: ProcId)
    requires Inv(s) && p in s.procs
    ensures ProcOk(s, p) && RowsOk(s)
  {
  }

  // ---- What one step leaves alone -------------------------------------------------------------

  ghost predicate Grows(s: State, s': State) {
    && (forall t :: t in s.trips ==> t in s'.trips && Evolves(s.trips[t], s'.trips[t]))
    && (forall d :: d in s.drivers ==> d in s'.drivers)
    && s.now <= s'.now
  }

  /** A step of `p` leaves every other process, every row another process has locked, and the
      assignments and the standing of a driver another process has locked. */
  ghost predicate Frame(s: State, s': State, p: ProcId) {
    && Grows(s, s')
    && (forall q :: q in s.procs && q != p ==> q in s'.procs && s'.procs[q] == s.procs[q])
    && (forall q :: q in s'.procs && q != p ==> q in s.procs)
    && (forall t :: t in s.tripLock && s.tripLock[t] != p ==>
          && t in s'.tripLock && s'.tripLock[t] == s.tripLock[t]
          && (t in s.trips ==> s'.trips[t] == s.trips[t]))
    && (forall d :: d in s.driverLock && s.driverLock[d] != p ==>
          && d in s'.driverLock && s'.driverLock[d] == s.driverLock[d]
          && (d in s.drivers ==> d in s'.drivers && SameStanding(s'.drivers[d], s.drivers[d]))
          && (forall u :: u in s'.trips && s'.trips[u].driver == Some(d) ==>
              u in s.trips && s.trips[u].driver == Some(d)))
  }

  /** The columns of the driver's row that an accept judges are as they were. */
  predicate SameStanding(a: Driver, b: Driver) {
    a.mayOperate == b.mayOperate && a.status == b.status && a.hasVehicle == b.hasVehicle
        && a.lockedUntil == b.lockedUntil
  }

  lemma EvolvesItself(trips: map<TripId, Trip>)
    ensures forall t :: t in trips ==> Evolves(trips[t], trips[t])
  {
  }

  lemma FreeByKept(s: State, s': State, d: DriverId, except: TripId, at: Time)
    requires RowsOk(s) && Grows(s, s')
    requires FreeBy(s.trips, d, except, at)
    requires forall u :: u in s'.trips && s'.trips[u].driver == Some(d) ==> u in s.trips && s.trips[u].driver == Some(d)
    ensures FreeBy(s'.trips, d, except, at)
  {
  }

  lemma RefusalKept(s: State, s': State, cmd: Command)
    requires cmd.UpdateTrip? || cmd.ConfirmCash?
    requires cmd.trip in s.trips ==> cmd.trip in s'.trips && Evolves(s.trips[cmd.trip], s'.trips[cmd.trip])
    requires Refusal(s, cmd).None?
    ensures Refusal(s', cmd).None?
  {
  }

  lemma OtherProcKept(s: State, s': State, p: ProcId, q: ProcId)
    requires q != p && q in s.procs && ProcOk(s, q)
    requires RowsOk(s) && Frame(s, s', p)
    ensures ProcOk(s', q)
  {
    var pr := s.procs[q];
    assert SubscribedOk(s', pr);
    if pr.cmd.AcceptTrip? {
      OtherAcceptKept(s, s', p, q);
    } else if pr.cmd.UpdateTrip? {
      OtherUpdateKept(s, s', p, q);
    } else {
      OtherPcKept(s, s', p, q);
    }
  }

  lemma OtherPcKept(s: State, s': State, p: ProcId, q: ProcId)
    requires q != p && q in s.procs && ProcOk(s, q) && !s.procs[q].cmd.AcceptTrip? && !s.procs[q].cmd.UpdateTrip?
    requires RowsOk(s) && Frame(s, s', p)
    ensures PcOk(s', q, s.procs[q])
  {
    hide RowsOk, WroteOk, SubscribedOk;
    if s.procs[q].cmd.ConfirmCash? {
      OtherCashKept(s, s', p, q);
    } else if s.procs[q].cmd.TimeOutTrip? {
      OtherTimeOutKept(s, s', p, q);
    } else {
      hide CashOk, TimeOutOk;
    }
  }

  lemma OtherCashKept(s: State, s': State, p: ProcId, q: ProcId)
    requires q != p && q in s.procs && ProcOk(s, q) && s.procs[q].cmd.ConfirmCash? && Frame(s, s', p)
    ensures PcOk(s', q, s.procs[q])
  {
    hide WroteOk, SubscribedOk;
    var pr := s.procs[q];
    if pr.pc.WantTrip? || pr.pc.HaveTrip? || pr.pc.Staged? {
      RefusalKept(s, s', pr.cmd);
    }
    hide Refusal;
  }

  lemma OtherTimeOutKept(s: State, s': State, p: ProcId, q: ProcId)
    requires q != p && q in s.procs && ProcOk(s, q) && s.procs[q].cmd.TimeOutTrip? && Frame(s, s', p)
    ensures PcOk(s', q, s.procs[q])
  {
    hide WroteOk, SubscribedOk;
  }

  lemma OtherAcceptKept(s: State, s': State, p: ProcId, q: ProcId)
    requires q != p && q in s.procs && ProcOk(s, q) && s.procs[q].cmd.AcceptTrip?
    requires RowsOk(s) && Frame(s, s', p)
    ensures PcOk(s', q, s.procs[q])
  {
    var pr := s.procs[q];
    if pr.pc.AfterCommit? || pr.pc.Done? {
      if pr.cmd.trip in s.trips && Reach(Accepted, s.trips[pr.cmd.trip].status) {
        ReachTransitive(Accepted, s.trips[pr.cmd.trip].status, s'.trips[pr.cmd.trip].status);
      }
    } else if pr.pc.Cleared? {
      FreeByKept(s, s', pr.cmd.profile.value, pr.cmd.trip, s.now);
    } else if pr.pc.Staged? {
      FreeByKept(s, s', pr.cmd.profile.value, pr.cmd.trip, pr.pc.at);
    }
  }

  lemma OtherUpdateKept(s: State, s': State, p: ProcId, q: ProcId)
    requires q != p && q in s.procs && ProcOk(s, q) && s.procs[q].cmd.UpdateTrip?
    requires RowsOk(s) && Frame(s, s', p)
    ensures PcOk(s', q, s.procs[q])
  {
    var pr := s.procs[q];
    if Refusal(s, pr.cmd).None? {
      RefusalKept(s, s', pr.cmd);
      if Reach(Target(pr.cmd.verb), s.trips[pr.cmd.trip].status) {
        ReachTransitive(Target(pr.cmd.verb), s.trips[pr.cmd.trip].status, s'.trips[pr.cmd.trip].status);
      }
    }
  }

  /** The shared end of every preservation proof. */
  lemma KeepInv(s: State, s': State, p: ProcId)
    requires Inv(s) && Frame(s, s', p)
    requires LocksOk(s') && RowsOk(s') && DriversApart(s'.trips) && KeysUnique(s'.trips)
    requires p in s'.procs ==> ProcOk(s', p)
    ensures Inv(s')
  {
    forall q | q in s'.procs ensures ProcOk(s', q) {
      if q != p {
        OtherProcKept(s, s', p, q);
      }
    }
  }

  /** A step that changes no stored row, no clock and no lock of another process. */
  lemma KeepInvQuiet(s: State, s': State, p: ProcId)
    requires Inv(s) && p in s'.procs
    requires s'.trips == s.trips && s'.drivers == s.drivers && s'.now == s.now
    requires s'.procs == s.procs[p := s'.procs[p]]
    requires forall t :: t in s.tripLock && s.tripLock[t] != p ==> t in s'.tripLock && s'.tripLock[t] == s.tripLock[t]
    requires forall d :: d in s.driverLock && s.driverLock[d] != p ==>
      d in s'.driverLock && s'.driverLock[d] == s.driverLock[d]
    requires LocksOk(s') && ProcOk(s', p)
    ensures Inv(s')
  {
    hide PcOk, WroteOk, DriversApart, KeysUnique, Evolves, RowOk;
    EvolvesItself(s.trips);
    KeepInv(s, s', p);
  }

  /** Whether a process is well placed depends on the stored rows and the clock, not on the locks
      or on other processes. */
  lemma PcOkSame(s: State, s': State, p: ProcId, pr: Proc)
    requires s'.trips == s.trips && s'.drivers == s.drivers && s'.now == s.now
    ensures PcOk(s, p, pr) <==> PcOk(s', p, pr)
    ensures SubscribedOk(s, pr) <==> SubscribedOk(s', pr)
  {
  }

  lemma LocksAfterRelease(s: State, s': State, p: ProcId)
    requires LocksOk(s) && p in s.procs && p in s'.procs
    requires s'.tripLock == Release(s, p).tripLock && s'.driverLock == Release(s, p).driverLock
    requires s'.procs == s.procs[p := s'.procs[p]]
    ensures LocksOk(s')
  {
  }

  lemma KeepInvFinish(s: State, p: ProcId, answer: Answer)
    requires Inv(s) && p in s.procs
    requires PcOk(s, p, s.procs[p].(pc := Done(answer))) && WroteOk(s.procs[p].(pc := Done(answer)))
    ensures Inv(Finish(s, p, answer))
  {
    KeepInvRelease(s, p, Done(answer));
  }

  lemma KeepInvRelease(s: State, p: ProcId, pc: Pc)
    requires Inv(s) && p in s.procs && (pc.Done? || pc.AfterCommit?)
    requires PcOk(s, p, s.procs[p].(pc := pc)) && WroteOk(s.procs[p].(pc := pc))
    ensures Inv(WithPc(Release(s, p), p, pc))
  {
    hide PcOk, WroteOk, RowsOk, DriversApart, KeysUnique;
    var s' := WithPc(Release(s, p), p, pc);
    LocksAfterRelease(s, s', p);
    PcOkSame(s, s', p, s'.procs[p]);
    PcOkSame(s, s', p, s.procs[p]);
    assert SubscribedOk(s, s'.procs[p]);
    KeepInvQuiet(s, s', p);
  }

  lemma KeepInvWithPc(s: State, p: ProcId, pc: Pc)
    requires Inv(s) && p in s.procs
    requires PcOk(s, p, s.procs[p].(pc := pc)) && WroteOk(s.procs[p].(pc := pc)) && HoldsOk(s, p, s.procs[p].(pc := pc))
    requires HoldsTrip(s.procs[p]) ==> HoldsTrip(s.procs[p].(pc := pc))
    requires var pr := s.procs[p].(pc := pc);
      HoldsDriver(s.procs[p]) ==> HoldsDriver(pr) && DriverWanted(pr) == DriverWanted(s.procs[p])
    ensures Inv(WithPc(s, p, pc))
  {
    hide PcOk, WroteOk, RowsOk, DriversApart, KeysUnique;
    var s' := WithPc(s, p, pc);
    PcOkSame(s, s', p, s'.procs[p]);
    assert SubscribedOk(s, s.procs[p]);
    KeepInvQuiet(s, s', p);
  }

  lemma KeepInvLockTrip(s: State, p: ProcId)
    requires Inv(s) && p in s.procs && s.procs[p].pc.WantTrip?
    requires var cmd := s.procs[p].cmd; cmd.AcceptTrip? || cmd.UpdateTrip? || cmd.ConfirmCash? || cmd.TimeOutTrip?
    requires var pr := s.procs[p]; pr.cmd.trip in s.trips ==> PcOk(s, p, pr.(pc := HaveTrip(s.trips[pr.cmd.trip])))
    requires PcOk(s, p, s.procs[p].(pc := Done(Rejected(Plain))))
    ensures Inv(LockTrip(s, p, s.procs[p].cmd.trip))
  {
    hide PcOk, RowsOk, DriversApart, KeysUnique, IsAssigned;
    var pr := s.procs[p];
    var t := pr.cmd.trip;
    assert ProcOk(s, p);
    if t !in s.trips {
      KeepInvFinish(s, p, Rejected(Plain));
    } else if t !in s.tripLock {
      var s' := LockTrip(s, p, t);
      PcOkSame(s, s', p, s'.procs[p]);
      assert SubscribedOk(s, pr);
      KeepInvQuiet(s, s', p);
    }
  }

  lemma KeepInvLockDriver(s: State, p: ProcId, d: DriverId, row: Trip, at: Time)
    requires Inv(s) && p in s.procs && s.procs[p].pc == WantDriver(row, at) && HoldsTrip(s.procs[p])
    requires DriverWanted(s.procs[p]) == Some(d)
    requires PcOk(s, p, s.procs[p].(pc := HaveDriver(row, at)))
    ensures Inv(LockDriver(s, p, d, row, at))
  {
    hide PcOk, RowsOk, DriversApart, KeysUnique;
    if d !in s.driverLock {
      var s' := LockDriver(s, p, d, row, at);
      PcOkSame(s, s', p, s'.procs[p]);
      assert SubscribedOk(s, s.procs[p]);
      KeepInvQuiet(s, s', p);
    }
  }

  // ---- Commits -----------------------------------------------------------------------------------

  lemma ApartKept(s: State, t: TripId, row: Trip)
    requires RowsOk(s) && DriversApart(s.trips) && t in s.trips
    requires Evolves(s.trips[t], row) && RowOk(row, s.now)
    requires row.driver.Some? && s.trips[t].driver.None? ==> FreeBy(s.trips, row.driver.value, t, row.acceptedAt.value)
    ensures DriversApart(s.trips[t := row])
  {
  }

  /** Publishing a staged row: it evolves from the stored one, keeps the row invariant, and if it
      assigns a driver, that driver is locked and was free. */
  lemma KeepInvCommit(s: State, p: ProcId, row: Trip, counted: Option<DriverId>)
    requires Inv(s) && p in s.procs && HoldsTrip(s.procs[p])
    requires var t := s.procs[p].cmd.trip; t in s.trips && Evolves(s.trips[t], row) && RowOk(row, s.now)
    requires row.driver.Some? ==> row.driver.value in s.drivers
    requires row.driver.Some? && s.trips[s.procs[p].cmd.trip].driver.None? ==>
      && FreeBy(s.trips, row.driver.value, s.procs[p].cmd.trip, row.acceptedAt.value)
      && HoldsDriver(s.procs[p]) && DriverWanted(s.procs[p]) == row.driver
    requires var s' := Commit(s, p, s.procs[p].cmd.trip, row, counted); PcOk(s', p, s'.procs[p])
    ensures Inv(Commit(s, p, s.procs[p].cmd.trip, row, counted))
  {
    hide PcOk, DriversApart, KeysUnique, RowOk;
    var t := s.procs[p].cmd.trip;
    var s' := Commit(s, p, t, row, counted);
    CommitFrame(s, p, row, counted);
    CommitRows(s, t, row, s');
    LocksAfterRelease(s, s', p);
    assert ProcOk(s', p) by {
      assert SubscribedOk(s, s.procs[p]);
    }
    KeepInv(s, s', p);
  }

  lemma CommitRows(s: State, t: TripId, row: Trip, s': State)
    requires RowsOk(s) && DriversApart(s.trips) && KeysUnique(s.trips) && t in s.trips
    requires Evolves(s.trips[t], row) && RowOk(row, s.now)
    requires row.driver.Some? ==> row.driver.value in s.drivers
    requires row.driver.Some? && s.trips[t].driver.None? ==> FreeBy(s.trips, row.driver.value, t, row.acceptedAt.value)
    requires s'.trips == s.trips[t := row] && s'.now == s.now
    requires forall d :: d in s.drivers ==> d in s'.drivers
    ensures RowsOk(s') && DriversApart(s'.trips) && KeysUnique(s'.trips)
  {
    ApartKept(s, t, row);
  }

  lemma CommitFrame(s: State, p: ProcId, row: Trip, counted: Option<DriverId>)
    requires LocksOk(s) && p in s.procs && HoldsTrip(s.procs[p]) && HoldsOk(s, p, s.procs[p])
    requires var t := s.procs[p].cmd.trip; t in s.trips && Evolves(s.trips[t], row)
    requires row.driver.Some? && s.trips[s.procs[p].cmd.trip].driver.None? ==>
      HoldsDriver(s.procs[p]) && DriverWanted(s.procs[p]) == row.driver
    ensures Frame(s, Commit(s, p, s.procs[p].cmd.trip, row, counted), p)
  {
    hide LocksOk;
    var t := s.procs[p].cmd.trip;
    var s' := Commit(s, p, t, row, counted);
    CommitGrows(s, p, row, counted);
    forall d, u | d in s.driverLock && s.driverLock[d] != p && u in s'.trips && s'.trips[u].driver == Some(d)
      ensures u in s.trips && s.trips[u].driver == Some(d)
    {
    }
    hide Grows, Evolves, DriverWanted;
  }

  lemma CommitGrows(s: State, p: ProcId, row: Trip, counted: Option<DriverId>)
    requires p in s.procs && HoldsTrip(s.procs[p])
    requires var t := s.procs[p].cmd.trip; t in s.trips && Evolves(s.trips[t], row)
    ensures Grows(s, Commit(s, p, s.procs[p].cmd.trip, row, counted))
  {
  }
}
