/** Every scheduler decision keeps the invariant, so every reachable state has it. */
module TripPreservation {
  import opened TripRows
  import opened TripProtocol
  import opened TripInvariant

  lemma FreeWhenNotOnAnotherTrip(s: State, d: DriverId, t: TripId)
    requires RowsOk(s) && !OnAnotherTrip(s.trips, d, t)
    ensures FreeBy(s.trips, d, t, s.now)
  {
    forall u | u in s.trips && u != t && s.trips[u].driver == Some(d)
      ensures EndOf(s.trips[u]).Some? && EndOf(s.trips[u]).value <= s.now
    {
      assert !Active(s.trips[u].status);
      assert RowOk(s.trips[u], s.now);
    }
  }

  lemma KeepInvAccept(s: State, p: ProcId, otp: string)
    requires Inv(s) && p in s.procs && s.procs[p].cmd.AcceptTrip?
    ensures Inv(AcceptStep(s, p, otp))
  {
    hide Inv, LocksOk, UpdateOk, CashOk, TimeOutOk, BookOk;
    InvProc(s, p);
    match s.procs[p].pc {
      case Begin => KeepInvAcceptBegin(s, p, otp);
      case WantTrip => KeepInvLockTrip(s, p);
      case HaveTrip(row) => KeepInvAcceptHaveTrip(s, p, otp);
      case WantDriver(row, at) => KeepInvLockDriver(s, p, s.procs[p].cmd.profile.value, row, at);
      case HaveDriver(row, _) => KeepInvAcceptHaveDriver(s, p, otp);
      case Cleared(row) => KeepInvAcceptCleared(s, p, otp);
      case Staged(row, at) => KeepInvAcceptCommit(s, p, otp);
      case AfterCommit => KeepInvAcceptAnswer(s, p, otp);
      case _ =>
    }
  }

  lemma KeepInvAcceptBegin(s: State, p: ProcId, otp: string)
    requires Inv(s) && p in s.procs && s.procs[p].cmd.AcceptTrip? && s.procs[p].pc.Begin?
    ensures Inv(AcceptStep(s, p, otp))
  {
    hide Inv, LocksOk, UpdateOk, CashOk, TimeOutOk, BookOk;
    InvProc(s, p);
    var pr := s.procs[p];
    if (pr.participation != CandidateDriverPart && pr.participation != AssignedDriverPart) || pr.cmd.profile.None? {
      KeepInvFinish(s, p, Rejected(NotADriver));
    } else {
      KeepInvWithPc(s, p, WantTrip);
    }
  }

  lemma KeepInvAcceptHaveTrip(s: State, p: ProcId, otp: string)
    requires Inv(s) && p in s.procs && s.procs[p].cmd.AcceptTrip? && s.procs[p].pc.HaveTrip?
    ensures Inv(AcceptStep(s, p, otp))
  {
    hide Inv, LocksOk, UpdateOk, CashOk, TimeOutOk, BookOk;
    InvProc(s, p);
    var pr := s.procs[p];
    var row := pr.pc.row;
    if row.driver.Some? || (row.status != NoStatus && row.status != Requested) {
      KeepInvFinish(s, p, Rejected(TripTaken));
    } else if pr.cmd.profile.value !in s.drivers {
      KeepInvFinish(s, p, Rejected(Plain));
    } else {
      KeepInvWithPc(s, p, WantDriver(row, s.now));
    }
  }

  lemma KeepInvAcceptHaveDriver(s: State, p: ProcId, otp: string)
    requires Inv(s) && p in s.procs && s.procs[p].cmd.AcceptTrip? && s.procs[p].pc.HaveDriver?
    ensures Inv(AcceptStep(s, p, otp))
  {
    hide Inv, LocksOk, UpdateOk, CashOk, TimeOutOk, BookOk;
    InvProc(s, p);
    var pr := s.procs[p];
    if !Eligible(s.drivers[pr.cmd.profile.value], s.now) {
      KeepInvFinish(s, p, Rejected(Plain));
    } else if OnAnotherTrip(s.trips, pr.cmd.profile.value, pr.cmd.trip) {
      KeepInvFinish(s, p, Rejected(DriverAlreadyOnTrip));
    } else {
      FreeWhenNotOnAnotherTrip(s, pr.cmd.profile.value, pr.cmd.trip);
      KeepInvWithPc(s, p, Cleared(pr.pc.row));
    }
  }

  lemma KeepInvAcceptCleared(s: State, p: ProcId, otp: string)
    requires Inv(s) && p in s.procs && s.procs[p].cmd.AcceptTrip? && s.procs[p].pc.Cleared?
    ensures Inv(AcceptStep(s, p, otp))
  {
    hide Inv, LocksOk, UpdateOk, CashOk, TimeOutOk, BookOk;
    InvProc(s, p);
    var pr := s.procs[p];
    KeepInvWithPc(s, p, Staged(AcceptRow(pr.pc.row, pr.cmd.profile.value, otp, s.now), s.now));
  }

  lemma KeepInvAcceptCommit(s: State, p: ProcId, otp: string)
    requires Inv(s) && p in s.procs && s.procs[p].cmd.AcceptTrip? && s.procs[p].pc.Staged?
    ensures Inv(AcceptStep(s, p, otp))
  {
    hide Inv, LocksOk, UpdateOk, CashOk, TimeOutOk, BookOk;
    InvProc(s, p);
    var pr := s.procs[p];
    var row := pr.pc.row;
    AcceptKeepsRow(s.trips[pr.cmd.trip], pr.cmd.profile.value, row.otp.value, pr.pc.at, s.now);
    KeepInvCommit(s, p, row, None);
  }

  lemma KeepInvAcceptAnswer(s: State, p: ProcId, otp: string)
    requires Inv(s) && p in s.procs && s.procs[p].cmd.AcceptTrip? && s.procs[p].pc.AfterCommit?
    ensures Inv(AcceptStep(s, p, otp))
  {
    hide UpdateOk, CashOk, TimeOutOk, BookOk;
    var s' := AcceptStep(s, p, otp);
    PcOkSame(s, s', p, s'.procs[p]);
    assert LocksOk(s');
    KeepInvQuiet(s, s', p);
  }

  lemma KeepInvUpdate(s: State, p: ProcId)
    requires Inv(s) && p in s.procs && s.procs[p].cmd.UpdateTrip?
    ensures Inv(UpdateStep(s, p))
  {
    hide Inv, LocksOk, AcceptOk, CashOk, TimeOutOk, BookOk;
    InvProc(s, p);
    match s.procs[p].pc {
      case Begin => KeepInvUpdateBegin(s, p);
      case WantTrip => KeepInvLockTrip(s, p);
      case HaveTrip(_) => KeepInvUpdateHaveTrip(s, p);
      case WantDriver(_, _) => KeepInvUpdateDriver(s, p);
      case HaveDriver(_, _) => KeepInvUpdateDriver(s, p);
      case Staged(row, at) => KeepInvUpdateCommit(s, p, row, at);
      case AfterCommit => KeepInvWithPc(s, p, Done(Committed(Target(s.procs[p].cmd.verb))));
      case _ =>
    }
  }

  lemma KeepInvUpdateDriver(s: State, p: ProcId)
    requires Inv(s) && p in s.procs && s.procs[p].cmd.UpdateTrip?
      && (s.procs[p].pc.WantDriver? || s.procs[p].pc.HaveDriver?)
    ensures Inv(UpdateStep(s, p))
  {
    hide Inv, LocksOk, AcceptOk, CashOk, TimeOutOk, BookOk;
    InvProc(s, p);
    var pc := s.procs[p].pc;
    if pc.WantDriver? {
      KeepInvLockDriver(s, p, pc.row.driver.value, pc.row, pc.at);
    } else {
      KeepInvWithPc(s, p, Staged(pc.row, pc.at));
    }
  }

  lemma KeepInvUpdateBegin(s: State, p: ProcId)
    requires Inv(s) && p in s.procs && s.procs[p].cmd.UpdateTrip? && s.procs[p].pc.Begin?
    ensures Inv(UpdateStep(s, p))
  {
    hide Inv, LocksOk, AcceptOk, CashOk, TimeOutOk, BookOk;
    InvProc(s, p);
    var refusal := Refusal(s, s.procs[p].cmd);
    if refusal.Some? {
      KeepInvFinish(s, p, Rejected(refusal.value));
    } else {
      KeepInvWithPc(s, p, WantTrip);
    }
  }

  lemma KeepInvUpdateHaveTrip(s: State, p: ProcId)
    requires Inv(s) && p in s.procs && s.procs[p].cmd.UpdateTrip? && s.procs[p].pc.HaveTrip?
    ensures Inv(UpdateStep(s, p))
  {
    hide Inv, LocksOk, AcceptOk, CashOk, TimeOutOk, BookOk;
    InvProc(s, p);
    var pr := s.procs[p];
    var row := pr.pc.row;
    var target := Target(pr.cmd.verb);
    match Decide(row, target, pr.cmd.otp) {
      case Refuse(answer) => KeepInvFinish(s, p, answer);
      case Proceed =>
        assert RowOk(s.trips[pr.cmd.trip], s.now);
        var staged := AdvanceRow(row, target, CancellerOf(row, pr.cmd.user), s.now);
        if target == Completed && row.driver.Some? {
          KeepInvWithPc(s, p, WantDriver(staged, s.now));
        } else {
          UpdateNeedsNoDriver(s, p, staged);
          KeepInvWithPc(s, p, Staged(staged, s.now));
        }
    }
  }

  /** An update that is not a completion by an assigned driver holds no driver row. */
  lemma UpdateNeedsNoDriver(s: State, p: ProcId, staged: Trip)
    requires Inv(s) && p in s.procs && s.procs[p].cmd.UpdateTrip? && s.procs[p].pc.HaveTrip?
    requires var row := s.procs[p].pc.row;
      Target(s.procs[p].cmd.verb) != Completed || (row.driver.None? && staged.driver == row.driver)
    ensures DriverWanted(s.procs[p].(pc := Staged(staged, s.now))).None?
  {
  }

  lemma KeepInvUpdateCommit(s: State, p: ProcId, row: Trip, at: Time)
    requires Inv(s) && p in s.procs && s.procs[p].cmd.UpdateTrip? && s.procs[p].pc == Staged(row, at)
    ensures Inv(UpdateStep(s, p))
  {
    hide Inv, LocksOk, AcceptOk, CashOk, TimeOutOk, BookOk, RowOk, RowsOk, SubscribedOk, MovesOnly, OnlyProc, Evolves;
    InvProc(s, p);
    var pr := s.procs[p];
    var counted := if Target(pr.cmd.verb) == Completed then row.driver else None;
    UpdateRowKept(s, pr, row, at);
    RefusalKept(s, Commit(s, p, pr.cmd.trip, row, counted), pr.cmd);
    KeepInvCommit(s, p, row, counted);
  }

  /** The row an update has staged may be stored. */
  lemma UpdateRowKept(s: State, pr: Proc, row: Trip, at: Time)
    requires RowsOk(s) && pr.cmd.UpdateTrip? && UpdateStaged(s, pr.cmd, row, at)
    ensures Evolves(s.trips[pr.cmd.trip], row) && RowOk(row, s.now) && row.driver == s.trips[pr.cmd.trip].driver
    ensures row.driver.Some? ==> row.driver.value in s.drivers
    ensures row.status == Target(pr.cmd.verb)
  {
    var stored := s.trips[pr.cmd.trip];
    AdvanceKeepsRow(stored, Target(pr.cmd.verb), CancellerOf(stored, pr.cmd.user), at, s.now);
  }

  lemma KeepInvCash(s: State, p: ProcId)
    requires Inv(s) && p in s.procs && s.procs[p].cmd.ConfirmCash?
    ensures Inv(CashStep(s, p))
  {
    hide Inv, LocksOk, AcceptOk, UpdateOk, TimeOutOk, BookOk;
    InvProc(s, p);
    match s.procs[p].pc {
      case Begin => KeepInvCashBegin(s, p);
      case WantTrip => KeepInvLockTrip(s, p);
      case HaveTrip(_) => KeepInvCashHaveTrip(s, p);
      case Staged(_, _) => KeepInvCashCommit(s, p);
      case AfterCommit => KeepInvWithPc(s, p, Done(Committed(s.trips[s.procs[p].cmd.trip].status)));
      case _ =>
    }
  }

  lemma KeepInvCashCommit(s: State, p: ProcId)
    requires Inv(s) && p in s.procs && s.procs[p].cmd.ConfirmCash? && s.procs[p].pc.Staged?
    ensures Inv(CashStep(s, p))
  {
    hide Inv, LocksOk, AcceptOk, UpdateOk, TimeOutOk, BookOk;
    InvProc(s, p);
    CashKeepsRow(s.trips[s.procs[p].cmd.trip], s.now);
    KeepInvCommit(s, p, s.procs[p].pc.row, None);
  }

  lemma KeepInvCashBegin(s: State, p: ProcId)
    requires Inv(s) && p in s.procs && s.procs[p].cmd.ConfirmCash? && s.procs[p].pc.Begin?
    ensures Inv(CashStep(s, p))
  {
    hide Inv, LocksOk, AcceptOk, UpdateOk, TimeOutOk, BookOk;
    InvProc(s, p);
    var refusal := Refusal(s, s.procs[p].cmd);
    if refusal.Some? {
      KeepInvFinish(s, p, Rejected(refusal.value));
    } else {
      KeepInvWithPc(s, p, WantTrip);
    }
  }

  lemma KeepInvCashHaveTrip(s: State, p: ProcId)
    requires Inv(s) && p in s.procs && s.procs[p].cmd.ConfirmCash? && s.procs[p].pc.HaveTrip?
    ensures Inv(CashStep(s, p))
  {
    hide Inv, LocksOk, AcceptOk, UpdateOk, TimeOutOk, BookOk, Refusal, RowsOk, SubscribedOk;
    InvProc(s, p);
    match DecideCash(s.procs[p].pc.row) {
      case Refuse(Committed(_)) => KeepInvRelease(s, p, AfterCommit);
      case Refuse(answer) => KeepInvFinish(s, p, answer);
      case Proceed => KeepInvWithPc(s, p, Staged(CashRow(s.procs[p].pc.row), s.now));
    }
  }

  lemma KeepInvTimeOut(s: State, p: ProcId)
    requires Inv(s) && p in s.procs && s.procs[p].cmd.TimeOutTrip?
    ensures Inv(TimeOutStep(s, p))
  {
    hide Inv, LocksOk, AcceptOk, UpdateOk, CashOk, BookOk;
    InvProc(s, p);
    match s.procs[p].pc {
      case Begin => KeepInvWithPc(s, p, WantTrip);
      case WantTrip => KeepInvLockTrip(s, p);
      case HaveTrip(_) => KeepInvTimeOutHaveTrip(s, p);
      case Staged(_, _) => KeepInvTimeOutCommit(s, p);
      case AfterCommit => KeepInvWithPc(s, p, Done(Committed(Cancelled)));
      case _ =>
    }
  }

  lemma KeepInvTimeOutHaveTrip(s: State, p: ProcId)
    requires Inv(s) && p in s.procs && s.procs[p].cmd.TimeOutTrip? && s.procs[p].pc.HaveTrip?
    ensures Inv(TimeOutStep(s, p))
  {
    hide Inv, LocksOk, AcceptOk, UpdateOk, CashOk, BookOk;
    InvProc(s, p);
    var row := s.procs[p].pc.row;
    if row.driver.Some? || Terminal(row.status) || Active(row.status) {
      KeepInvFinish(s, p, StoodDown);
    } else {
      KeepInvWithPc(s, p, Staged(TimeoutRow(row, s.now), s.now));
    }
  }

  lemma KeepInvTimeOutCommit(s: State, p: ProcId)
    requires Inv(s) && p in s.procs && s.procs[p].cmd.TimeOutTrip? && s.procs[p].pc.Staged?
    ensures Inv(TimeOutStep(s, p))
  {
    hide Inv, LocksOk, AcceptOk, UpdateOk, CashOk, BookOk;
    InvProc(s, p);
    TimeoutKeepsRow(s.trips[s.procs[p].cmd.trip], s.procs[p].pc.at, s.now);
    KeepInvCommit(s, p, s.procs[p].pc.row, None);
  }

  lemma KeepInvBook(s: State, p: ProcId, newTrip: TripId)
    requires Inv(s) && p in s.procs && s.procs[p].cmd.BookTrip?
    ensures Inv(BookStep(s, p, newTrip))
  {
    hide Inv, LocksOk, AcceptOk, UpdateOk, CashOk, TimeOutOk;
    InvProc(s, p);
    var pr := s.procs[p];
    var user, key := pr.cmd.user, pr.cmd.key;
    match pr.pc {
      case Begin =>
        if HasBooking(s.trips, user, key) {
          KeepInvWithPc(s, p, Done(Booked(FindBooking(s.trips, user, key), true)));
        } else {
          KeepInvWithPc(s, p, Pricing);
        }
      case Pricing =>
        if HasBooking(s.trips, user, key) {
          KeepInvWithPc(s, p, Done(Booked(FindBooking(s.trips, user, key), true)));
        } else if newTrip !in s.trips {
          KeepInvInsert(s, p, newTrip);
        }
      case AfterInsert(t) => KeepInvWithPc(s, p, Done(Booked(t, false)));
      case _ =>
    }
  }

  lemma KeepInvInsert(s: State, p: ProcId, newTrip: TripId)
    requires Inv(s) && p in s.procs && s.procs[p].cmd.BookTrip? && s.procs[p].pc.Pricing?
    requires !HasBooking(s.trips, s.procs[p].cmd.user, s.procs[p].cmd.key) && newTrip !in s.trips
    ensures Inv(BookStep(s, p, newTrip))
  {
    hide ProcOk, Frame, LocksOk, RowsOk, DriversApart, KeysUnique;
    var s' := BookStep(s, p, newTrip);
    InsertRows(s.trips, newTrip, s'.trips[newTrip]);
    InsertRowsOk(s, p, newTrip);
    InsertFrame(s, p, newTrip);
    InsertProc(s, p, newTrip);
    KeepInv(s, s', p);
  }

  lemma InsertRowsOk(s: State, p: ProcId, newTrip: TripId)
    requires RowsOk(s) && p in s.procs && s.procs[p].cmd.BookTrip? && s.procs[p].pc.Pricing?
    requires !HasBooking(s.trips, s.procs[p].cmd.user, s.procs[p].cmd.key) && newTrip !in s.trips
    ensures RowsOk(BookStep(s, p, newTrip))
  {
  }

  lemma InsertProc(s: State, p: ProcId, newTrip: TripId)
    requires p in s.procs && ProcOk(s, p) && s.procs[p].cmd.BookTrip? && s.procs[p].pc.Pricing?
    requires !HasBooking(s.trips, s.procs[p].cmd.user, s.procs[p].cmd.key) && newTrip !in s.trips
    ensures ProcOk(BookStep(s, p, newTrip), p)
  {
    hide AcceptOk, UpdateOk, CashOk, TimeOutOk;
  }

  /** An open row under a new id, whose key no row has yet. */
  lemma InsertRows(trips: map<TripId, Trip>, newTrip: TripId, row: Trip)
    requires DriversApart(trips) && KeysUnique(trips) && newTrip !in trips
    requires row.driver.None? && !HasBooking(trips, row.rider, row.requestKey)
    ensures DriversApart(trips[newTrip := row]) && KeysUnique(trips[newTrip := row])
  {
    forall t | t in trips && row.requestKey.Some? && trips[t].requestKey == row.requestKey
      ensures trips[t].rider != row.rider
    {
      assert !Matches(trips[t], row.rider, row.requestKey);
    }
  }

  lemma InsertFrame(s: State, p: ProcId, newTrip: TripId)
    requires LocksOk(s) && p in s.procs && s.procs[p].cmd.BookTrip? && s.procs[p].pc.Pricing?
    requires !HasBooking(s.trips, s.procs[p].cmd.user, s.procs[p].cmd.key) && newTrip !in s.trips
    ensures var s' := BookStep(s, p, newTrip); Frame(s, s', p) && LocksOk(s')
  {
    EvolvesItself(s.trips);
    hide Evolves, MovesOnly, HasBooking, LocksOk;
    var s' := BookStep(s, p, newTrip);
    assert Grows(s, s');
    InsertLocks(s, p, newTrip);
  }

  lemma InsertLocks(s: State, p: ProcId, newTrip: TripId)
    requires LocksOk(s) && p in s.procs && s.procs[p].cmd.BookTrip? && s.procs[p].pc.Pricing?
    requires !HasBooking(s.trips, s.procs[p].cmd.user, s.procs[p].cmd.key) && newTrip !in s.trips
    ensures LocksOk(BookStep(s, p, newTrip))
  {
    hide MovesOnly, HasBooking;
  }

  lemma KeepInvToggle(s: State, p: ProcId)
    requires Inv(s) && p in s.procs && (s.procs[p].cmd.GoOnline? || s.procs[p].cmd.GoOffline?)
    ensures Inv(ToggleStep(s, p))
  {
    hide Inv, LocksOk, AcceptOk, UpdateOk, CashOk, TimeOutOk, BookOk;
    InvProc(s, p);
    var pr := s.procs[p];
    var d := pr.cmd.driver;
    match pr.pc {
      case Begin =>
        if d !in s.drivers {
          KeepInvFinish(s, p, Toggled(false));
        } else if pr.cmd.GoOffline? {
          KeepInvWithPc(s, p, Saving);
        } else if s.drivers[d].mayOperate {
          KeepInvWithPc(s, p, Loaded(s.drivers[d]));
        } else {
          KeepInvFinish(s, p, Toggled(false));
        }
      case Loaded(snapshot) =>
        if snapshot.lockedUntil > s.now || s.drivers[d].overCap {
          KeepInvFinish(s, p, Toggled(false));
        } else {
          KeepInvWithPc(s, p, Saving);
        }
      case Saving =>
        if d in s.drivers && d !in s.driverLock {
          if pr.cmd.GoOffline? && s.drivers[d].status == Blocked {
            KeepInvWithPc(s, p, Saved);
          } else {
            KeepInvToggleWrite(s, p);
          }
        }
      case Saved => KeepInvWithPc(s, p, Done(Toggled(true)));
      case _ =>
    }
  }

  lemma KeepInvToggleWrite(s: State, p: ProcId)
    requires Inv(s) && p in s.procs && (s.procs[p].cmd.GoOnline? || s.procs[p].cmd.GoOffline?) && s.procs[p].pc.Saving?
    requires s.procs[p].cmd.driver in s.drivers && s.procs[p].cmd.driver !in s.driverLock
    requires !(s.procs[p].cmd.GoOffline? && s.drivers[s.procs[p].cmd.driver].status == Blocked)
    ensures Inv(ToggleStep(s, p))
  {
    hide ProcOk, Frame, LocksOk, RowsOk, DriversApart, KeysUnique;
    var s' := ToggleStep(s, p);
    ToggleFrame(s, p);
    ToggleProc(s, p);
    KeepInv(s, s', p);
  }

  lemma ToggleProc(s: State, p: ProcId)
    requires p in s.procs && ProcOk(s, p) && RowsOk(s)
      && (s.procs[p].cmd.GoOnline? || s.procs[p].cmd.GoOffline?) && s.procs[p].pc.Saving?
    requires s.procs[p].cmd.driver in s.drivers && s.procs[p].cmd.driver !in s.driverLock
    requires !(s.procs[p].cmd.GoOffline? && s.drivers[s.procs[p].cmd.driver].status == Blocked)
    ensures var s' := ToggleStep(s, p); ProcOk(s', p) && RowsOk(s') && s'.trips == s.trips
  {
    hide AcceptOk, UpdateOk, CashOk, TimeOutOk, BookOk, RowOk;
  }

  lemma ToggleFrame(s: State, p: ProcId)
    requires LocksOk(s) && p in s.procs && (s.procs[p].cmd.GoOnline? || s.procs[p].cmd.GoOffline?)
      && s.procs[p].pc.Saving?
    requires s.procs[p].cmd.driver in s.drivers && s.procs[p].cmd.driver !in s.driverLock
    requires !(s.procs[p].cmd.GoOffline? && s.drivers[s.procs[p].cmd.driver].status == Blocked)
    ensures Frame(s, ToggleStep(s, p), p) && LocksOk(ToggleStep(s, p))
  {
    EvolvesItself(s.trips);
    hide Evolves, MovesOnly, OnlyProc, LocksOk;
    assert Grows(s, ToggleStep(s, p));
    ToggleLocks(s, p);
  }

  lemma ToggleLocks(s: State, p: ProcId)
    requires LocksOk(s) && p in s.procs && (s.procs[p].cmd.GoOnline? || s.procs[p].cmd.GoOffline?)
      && s.procs[p].pc.Saving?
    requires s.procs[p].cmd.driver in s.drivers && s.procs[p].cmd.driver !in s.driverLock
    requires !(s.procs[p].cmd.GoOffline? && s.drivers[s.procs[p].cmd.driver].status == Blocked)
    ensures LocksOk(ToggleStep(s, p))
  {
    hide MovesOnly, OnlyProc;
  }

  lemma KeepInvRaise(s: State, p: ProcId)
    requires Inv(s) && p in s.procs
    ensures Inv(RaiseStep(s, p))
  {
    hide Inv, LocksOk;
    InvProc(s, p);
    var pr := s.procs[p];
    if pr.pc.Done? {
    } else if pr.pc.Begin? {
      KeepInvFinish(s, p, NoAnswer);
    } else if pr.cmd.BookTrip? {
      KeepInvFinish(s, p, NoTrip);
    } else if pr.cmd.GoOnline? || pr.cmd.GoOffline? {
      KeepInvFinish(s, p, Toggled(false));
    } else {
      KeepInvFinish(s, p, Rejected(Plain));
    }
  }

  lemma KeepInvTick(s: State, dt: nat)
    requires Inv(s)
    ensures Inv(s.(now := s.now + dt))
  {
    hide Frame, RowsOk, LocksOk, ProcOk, DriversApart, KeysUnique;
    var s' := s.(now := s.now + dt);
    forall p | p in s'.procs ensures ProcOk(s', p) {
      TickFrame(s, dt, p + 1);
      OtherProcKept(s, s', p + 1, p);
    }
    TickTables(s, dt);
  }

  lemma TickFrame(s: State, dt: nat, p: ProcId)
    ensures Frame(s, s.(now := s.now + dt), p)
  {
    hide Evolves;
    EvolvesItself(s.trips);
  }

  lemma TickTables(s: State, dt: nat)
    requires LocksOk(s) && RowsOk(s)
    ensures LocksOk(s.(now := s.now + dt)) && RowsOk(s.(now := s.now + dt))
  {
  }

  lemma KeepInvReview(s: State, d: DriverId, standing: Driver)
    requires Inv(s)
    ensures Inv(ReviewStep(s, d, standing))
  {
    hide Frame, RowsOk, LocksOk, ProcOk, DriversApart, KeysUnique;
    var s' := ReviewStep(s, d, standing);
    forall p | p in s'.procs ensures ProcOk(s', p) {
      ReviewFrame(s, d, standing, p + 1);
      OtherProcKept(s, s', p + 1, p);
    }
    ReviewTables(s, d, standing);
  }

  lemma ReviewTables(s: State, d: DriverId, standing: Driver)
    requires LocksOk(s) && RowsOk(s)
    ensures LocksOk(ReviewStep(s, d, standing)) && RowsOk(ReviewStep(s, d, standing))
  {
    hide RowOk;
  }

  lemma ReviewFrame(s: State, d: DriverId, standing: Driver, p: ProcId)
    ensures Frame(s, ReviewStep(s, d, standing), p)
  {
    hide Evolves;
    EvolvesItself(s.trips);
  }

  lemma KeepInvTire(s: State, d: DriverId, overCap: bool)
    requires Inv(s)
    ensures Inv(TireStep(s, d, overCap))
  {
    hide Frame, RowsOk, LocksOk, ProcOk, DriversApart, KeysUnique;
    var s' := TireStep(s, d, overCap);
    forall p | p in s'.procs ensures ProcOk(s', p) {
      TireFrame(s, d, overCap, p + 1);
      OtherProcKept(s, s', p + 1, p);
    }
    TireTables(s, d, overCap);
  }

  lemma TireFrame(s: State, d: DriverId, overCap: bool, p: ProcId)
    ensures Frame(s, TireStep(s, d, overCap), p)
  {
    hide Evolves;
    EvolvesItself(s.trips);
  }

  lemma TireTables(s: State, d: DriverId, overCap: bool)
    requires LocksOk(s) && RowsOk(s)
    ensures LocksOk(TireStep(s, d, overCap)) && RowsOk(TireStep(s, d, overCap))
  {
    hide RowOk;
  }

  lemma KeepInvSubmit(s: State, p: ProcId, cmd: Command)
    requires Inv(s) && p !in s.procs
    ensures Inv(s.(procs := s.procs[p := Connect(s, cmd)]))
  {
    hide Frame, LocksOk, RowsOk, DriversApart, KeysUnique, ProcOk, Connect;
    var pr := Connect(s, cmd);
    var s' := s.(procs := s.procs[p := pr]);
    SubmitFrame(s, p, pr);
    SubmitProc(s, p, cmd);
    KeepInv(s, s', p);
  }

  lemma SubmitProc(s: State, p: ProcId, cmd: Command)
    requires p !in s.procs
    ensures ProcOk(s.(procs := s.procs[p := Connect(s, cmd)]), p)
  {
    var pr := Connect(s, cmd);
    var s' := s.(procs := s.procs[p := pr]);
    assert HoldsOk(s', p, pr) && PcOk(s', p, pr) && WroteOk(pr);
    assert SubscribedOk(s', pr);
  }

  lemma SubmitFrame(s: State, p: ProcId, pr: Proc)
    requires LocksOk(s) && RowsOk(s) && p !in s.procs
    ensures var s' := s.(procs := s.procs[p := pr]); Frame(s, s', p) && LocksOk(s') && RowsOk(s')
  {
    assert Grows(s, s.(procs := s.procs[p := pr]));
  }

  lemma KeepInvMute(s: State, p: ProcId)
    requires Inv(s) && p in s.procs
    ensures Inv(MuteStep(s, p))
  {
    hide Inv, LocksOk;
    InvProc(s, p);
    if s.procs[p].pc.AfterCommit? {
      KeepInvWithPc(s, p, Done(NoAnswer));
    }
  }

  lemma KeepInvStep(s: State, p: ProcId, otp: string, newTrip: TripId)
    requires Inv(s) && p in s.procs
    ensures Inv(ProcStep(s, p, otp, newTrip))
  {
    hide Inv, LocksOk;
    InvProc(s, p);
    match s.procs[p].cmd {
      case AcceptTrip(_, _, _) => KeepInvAccept(s, p, otp);
      case UpdateTrip(_, _, _, _, _) => KeepInvUpdate(s, p);
      case ConfirmCash(_, _, _) => KeepInvCash(s, p);
      case TimeOutTrip(_) => KeepInvTimeOut(s, p);
      case BookTrip(_, _, _) => KeepInvBook(s, p, newTrip);
      case GoOnline(_) => KeepInvToggle(s, p);
      case GoOffline(_) => KeepInvToggle(s, p);
    }
  }

  /** One scheduler decision keeps the invariant. */
  lemma NextKeepsInv(s: State, e: Event)
    requires Inv(s)
    ensures Inv(Next(s, e))
  {
    hide Inv;
    match e {
      case Submit(p, cmd) => if p !in s.procs { KeepInvSubmit(s, p, cmd); }
      case Step(p, otp, newTrip) => if p in s.procs { KeepInvStep(s, p, otp, newTrip); }
      case Raise(p) => if p in s.procs { KeepInvRaise(s, p); }
      case Mute(p) => if p in s.procs { KeepInvMute(s, p); }
      case Review(d, standing) => KeepInvReview(s, d, standing);
      case Tire(d, overCap) => KeepInvTire(s, d, overCap);
      case Tick(dt) => KeepInvTick(s, dt);
    }
  }

  /** Every state of every run from a database at rest has the invariant. */
  lemma {:induction false} RunKeepsInv(s: State, events: seq<Event>)
    requires Initial(s)
    ensures Inv(Run(s, events))
    decreases |events|
  {
    if events != [] {
      RunKeepsInv(s, events[..|events| - 1]);
      NextKeepsInv(Run(s, events[..|events| - 1]), events[|events| - 1]);
    }
  }
}
