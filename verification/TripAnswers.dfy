/** What the protocol's answers and writes do not promise, each with its exact limit. */
module TripAnswers {
  import opened TripRows
  import opened TripProtocol
  import opened TripInvariant
  import opened TripPreservation
  import opened TripTheorems
  import opened TripDuties

  // ---- A refusal that hides a commit ---------------------------------------------------------------------

  datatype Family = Accepts | Updates | Cashes

  predicate InFamily(cmd: Command, f: Family) {
    match f
    case Accepts => cmd.AcceptTrip?
    case Updates => cmd.UpdateTrip?
    case Cashes => cmd.ConfirmCash?
  }

  ghost predicate RefusedAfterWriting(s: State, events: seq<Event>, p: ProcId, f: Family, reason: Reason) {
    && Initial(s) && p in Run(s, events).procs
    && var pr := Run(s, events).procs[p];
       InFamily(pr.cmd, f) && pr.pc == Done(Rejected(reason)) && pr.wrote
  }

  /** In every run from a database at rest, a call refused for this reason has written nothing. */
  ghost predicate MeansUnchanged(f: Family, reason: Reason) {
    !exists s: State, events: seq<Event>, p: ProcId :: RefusedAfterWriting(s, events, p, f, reason)
  }

  /** A refusal tells its caller that nothing was written exactly when it carries a reason code. Without
      one, an exception after the commit is answered exactly like one that rolled back: for each of the
      three commands there is a run from a database at rest in which it is. */
  lemma RefusalMeansUnchanged(f: Family, reason: Reason)
    ensures MeansUnchanged(f, reason) <==> reason != Plain
  {
    hide RefusedAfterWriting;
    if reason == Plain {
      var s, events, p := CommittedButRefused(f);
      assert RefusedAfterWriting(s, events, p, f, reason);
    } else {
      forall s: State, events: seq<Event>, p: ProcId ensures !RefusedAfterWriting(s, events, p, f, reason) {
        ReasonedIsUnchanged(s, events, p, f, reason);
      }
    }
  }

  lemma ReasonedIsUnchanged(s: State, events: seq<Event>, p: ProcId, f: Family, reason: Reason)
    requires reason != Plain
    ensures !RefusedAfterWriting(s, events, p, f, reason)
  {
    hide Run, Initial;
    if RefusedAfterWriting(s, events, p, f, reason) {
      AnswersTellWhoWrote(s, events, p);
    }
  }

  /** One trip of rider 1, and driver 0 in good standing. */
  function Small(row: Trip): State {
    State(map[0 := row], map[0 := Driver(Online, true, true, 0, false, 0)], map[], map[], map[], 0)
  }

  function Asked(): Trip {
    NewTrip(1, None, 0, CashMethod)
  }

  function Finished(): Trip {
    AdvanceRow(AcceptRow(Asked(), 0, "", 0).(status := InProgress, startedAt := Some(0)), Completed, Nobody, 0)
  }

  function Starting(f: Family): (State, Command) {
    match f
    case Accepts => (Small(Asked()), AcceptTrip(2, Some(0), 0))
    case Updates => (Small(Asked()), UpdateTrip(1, None, 0, CancelRide, ""))
    case Cashes => (Small(Finished()), ConfirmCash(2, Some(0), 0))
  }

  lemma StartingIsEntitled(f: Family)
    ensures var (s, cmd) := Starting(f); Initial(s) && Entitled(s, cmd) && NotHeldUp(s, cmd) && InFamily(cmd, f)
  {
    match f {
      case Accepts =>
      case Updates =>
      case Cashes =>
    }
  }

  function Submitted(s: State, p: ProcId, cmd: Command): State {
    s.(procs := s.procs[p := Connect(s, cmd)])
  }

  lemma SubmitIs(s: State, p: ProcId, cmd: Command)
    requires p !in s.procs
    ensures Next(s, Submit(p, cmd)) == Submitted(s, p, cmd)
  {
  }

  /** The run: submit, step to the commit, raise. */
  lemma CommittedButRefused(f: Family) returns (s: State, events: seq<Event>, p: ProcId)
    ensures RefusedAfterWriting(s, events, p, f, Plain)
  {
    hide Next, Initial, Entitled, NotHeldUp, Written;
    var start := Starting(f);
    s, p := start.0, 0;
    StartingIsEntitled(f);
    var first := Submit(p, start.1);
    SubmittedIsDue(s, p, start.1, "");
    var steps := GetsToItsCommit(s, Next(s, first), p, start.1, "");
    RunFirst(s, first, steps);
    RunLast(s, [first] + steps, Raise(p));
    RaisedIsRefused(Run(s, [first] + steps), p, start.1);
    events := [first] + steps + [Raise(p)];
  }

  lemma RaisedIsRefused(s: State, p: ProcId, cmd: Command)
    requires p in s.procs && s.procs[p].cmd == cmd && s.procs[p].pc.AfterCommit? && s.procs[p].wrote
    requires cmd.AcceptTrip? || cmd.UpdateTrip? || cmd.ConfirmCash?
    ensures var r := Next(s, Raise(p));
      p in r.procs && r.procs[p].cmd == cmd && r.procs[p].pc == Done(Rejected(Plain)) && r.procs[p].wrote
  {
  }

  // ---- An accept that comes late -----------------------------------------------------------------------------

  /** An accept of a trip that has a driver, somewhere on its way to a refusal. */
  ghost predicate Late(s: State, p: ProcId, cmd: Command) {
    && cmd.AcceptTrip? && cmd.trip in s.trips && s.trips[cmd.trip].driver.Some?
    && p in s.procs && s.procs[p].cmd == cmd && !s.procs[p].wrote
    && (s.procs[p].pc.Begin? || s.procs[p].pc.WantTrip? || s.procs[p].pc.HaveTrip? || TurnedDown(s.procs[p].pc))
  }

  predicate TurnedDown(pc: Pc) {
    && pc.Done?
    && (pc.answer == NoAnswer || pc.answer == Rejected(NotADriver) || pc.answer == Rejected(TripTaken)
        || pc.answer == Rejected(Plain))
  }

  lemma LateStaysLate(s: State, e: Event, p: ProcId, cmd: Command)
    requires Inv(s) && Late(s, p, cmd)
    ensures Late(Next(s, e), p, cmd)
  {
    hide Inv, ProcStep, RowsOk, ReviewStep, TireStep, AcceptStep;
    InvProc(s, p);
    var touched := NextTouchesOneRow(s, e);
    if e.Step? && e.p == p {
      LateStep(s, p, e.otp);
      assert Next(s, e) == ProcStep(s, p, e.otp, e.newTrip);
      StepOfAccept(s, p, e.otp, e.newTrip);
    } else {
      OthersLeaveIt(s, e, p);
    }
  }

  lemma StepOfAccept(s: State, p: ProcId, otp: string, newTrip: TripId)
    requires p in s.procs && s.procs[p].cmd.AcceptTrip?
    ensures ProcStep(s, p, otp, newTrip) == AcceptStep(s, p, otp)
  {
    hide AcceptStep, MovesOnly;
  }

  lemma LateStep(s: State, p: ProcId, otp: string)
    requires p in s.procs && Late(s, p, s.procs[p].cmd) && ProcOk(s, p)
    ensures Late(AcceptStep(s, p, otp), p, s.procs[p].cmd)
  {
    hide SubscribedOk, WroteOk, HoldsOk;
  }

  /** No event but its own step, an exception or a lost reply changes a process. */
  lemma OthersLeaveIt(s: State, e: Event, p: ProcId)
    requires p in s.procs && !(e.Step? && e.p == p)
    ensures var s' := Next(s, e);
      p in s'.procs && s'.procs[p].cmd == s.procs[p].cmd && s'.procs[p].wrote == s.procs[p].wrote
    ensures var s' := Next(s, e);
      && (s'.procs[p].pc == s.procs[p].pc
          || (s.procs[p].pc.Begin? && s'.procs[p].pc == Done(NoAnswer))
          || (s.procs[p].pc.AfterCommit? && s'.procs[p].pc == Done(NoAnswer))
          || (s.procs[p].cmd.AcceptTrip? && s'.procs[p].pc == Done(Rejected(Plain)))
          || !s.procs[p].cmd.AcceptTrip?)
  {
    hide ProcStep, Connect, RaiseStep, MuteStep, ReviewStep, TireStep;
    match e {
      case Raise(q) =>
        if q in s.procs {
          RaisedProc(s, q);
        }
      case Mute(q) =>
        if q in s.procs {
          MutedProc(s, q);
        }
      case Review(d, standing) => ReviewLeavesProcs(s, d, standing);
      case Tire(d, overCap) => TireLeavesProcs(s, d, overCap);
      case _ =>
    }
  }

  lemma RaisedProc(s: State, p: ProcId)
    requires p in s.procs
    ensures var s' := RaiseStep(s, p); var pr := s.procs[p];
      && s'.procs == s.procs[p := s'.procs[p]] && s'.procs[p] == pr.(pc := s'.procs[p].pc)
      && s'.trips == s.trips && s'.drivers == s.drivers
      && s'.procs[p].pc.Done? && (pr.pc.Done? ==> s'.procs[p].pc == pr.pc)
      && (s'.procs[p].pc == pr.pc || (pr.pc.Begin? && s'.procs[p].pc == Done(NoAnswer)) || !pr.cmd.AcceptTrip?
          || s'.procs[p].pc == Done(Rejected(Plain)))
  {
    hide Finish;
  }

  lemma MutedProc(s: State, p: ProcId)
    requires p in s.procs
    ensures var s' := MuteStep(s, p); var pr := s.procs[p];
      && s'.procs == s.procs[p := s'.procs[p]] && s'.procs[p] == pr.(pc := s'.procs[p].pc)
      && s'.trips == s.trips && s'.drivers == s.drivers
      && (s'.procs[p].pc == pr.pc || (pr.pc.AfterCommit? && s'.procs[p].pc == Done(NoAnswer)))
  {
  }

  lemma ReviewLeavesProcs(s: State, d: DriverId, standing: Driver)
    ensures ReviewStep(s, d, standing).procs == s.procs
    ensures var s' := ReviewStep(s, d, standing);
      forall c :: c in s.drivers && c != d ==> c in s'.drivers && s'.drivers[c] == s.drivers[c]
    ensures ReviewStep(s, d, standing).drivers.Keys == s.drivers.Keys
  {
  }

  lemma TireLeavesProcs(s: State, d: DriverId, overCap: bool)
    ensures TireStep(s, d, overCap).procs == s.procs
  {
  }

  lemma {:induction false} LateRun(s: State, events: seq<Event>, p: ProcId, cmd: Command)
    requires Inv(s) && Late(s, p, cmd)
    ensures Inv(Run(s, events)) && Late(Run(s, events), p, cmd)
    decreases |events|
  {
    hide Inv, Late, Next;
    RunKeepsInvFrom(s, events);
    if events != [] {
      var before, last := events[..|events| - 1], events[|events| - 1];
      LateRun(s, before, p, cmd);
      LateStaysLate(Run(s, before), last, p, cmd);
    }
  }

  /** In every run: an accept submitted on a trip that has a driver, whoever that driver is, never writes
      and is never acknowledged as a success; what answer it gets is that it is no driver's, that the trip
      is taken, a refusal without a code, or none. */
  lemma LateAcceptNeverWins(s: State, before: seq<Event>, after: seq<Event>, p: ProcId, cmd: Command)
    requires Initial(s) && cmd.AcceptTrip? && p !in Run(s, before).procs
    requires cmd.trip in Run(s, before).trips && Run(s, before).trips[cmd.trip].driver.Some?
    ensures var r := Run(s, before + [Submit(p, cmd)] + after);
      && p in r.procs && r.procs[p].cmd == cmd && !r.procs[p].wrote
      && (forall status :: !PositiveAck(r.procs[p], status))
      && (r.procs[p].pc.Done? ==> TurnedDown(r.procs[p].pc))
      && cmd.trip in r.trips && r.trips[cmd.trip].driver == Run(s, before).trips[cmd.trip].driver
  {
    hide Inv, Next, Run, Initial;
    var submit := Submit(p, cmd);
    RunKeepsInv(s, before);
    RunLast(s, before, submit);
    SubmitIs(Run(s, before), p, cmd);
    var mid := Submitted(Run(s, before), p, cmd);
    RunKeepsInv(s, before + [submit]);
    RunAppend(s, before + [submit], after);
    LateRun(mid, after, p, cmd);
    RowsEvolve(mid, after, cmd.trip);
  }

  /** A winner who retries its accept is told the trip is taken: the check for an assigned driver
      does not ask which driver it is. */
  lemma RetriedAcceptIsTaken(s: State, p: ProcId, user: UserId, d: DriverId, t: TripId, otp: string)
    requires p !in s.procs && t in s.trips && t !in s.tripLock
    requires s.trips[t].driver == Some(d) && s.trips[t].rider != user
    ensures var retry := [Submit(p, AcceptTrip(user, Some(d), t)), Step(p, otp, 0), Step(p, otp, 0), Step(p, otp, 0)];
      && Run(s, retry).trips == s.trips
      && p in Run(s, retry).procs && Run(s, retry).procs[p].pc == Done(Rejected(TripTaken))
  {
    hide MovesOnly, OnlyProc;
    var cmd := AcceptTrip(user, Some(d), t);
    var e := [Submit(p, cmd), Step(p, otp, 0), Step(p, otp, 0), Step(p, otp, 0)];
    assert e[..3] == [e[0], e[1], e[2]] && e[..3][..2] == [e[0], e[1]] && e[..3][..2][..1] == [e[0]]
        && [e[0]][..0] == [];
    var s1 := Next(s, e[0]);
    assert Run(s, [e[0]]) == s1;
    var s2 := Next(s1, e[1]);
    assert Run(s, [e[0], e[1]]) == s2;
    var s3 := Next(s2, e[2]);
    assert Run(s, [e[0], e[1], e[2]]) == s3;
    assert Run(s, e) == Next(s3, e[3]);
  }

  // ---- A suspension and the toggles --------------------------------------------------------------------

  ghost predicate Suspended(s: State, d: DriverId) {
    d in s.drivers && s.drivers[d].status == Blocked
  }

  ghost predicate MayOperate(s: State, d: DriverId) {
    d in s.drivers && s.drivers[d].mayOperate
  }

  /** The calls to go online that have written. */
  ghost function WroteOnline(s: State, d: DriverId): set<ProcId> {
    set p | p in s.procs && s.procs[p].cmd == GoOnline(d) && s.procs[p].wrote
  }

  /** Past the check of the loaded copy, and not yet written. */
  predicate Ahead(pc: Pc) {
    pc.Loaded? || pc.Saving?
  }

  /** The calls to go online whose socket was let in and that may still write. */
  ghost function Underway(s: State, d: DriverId): set<ProcId> {
    set p | p in s.procs && s.procs[p].cmd == GoOnline(d) && Ahead(s.procs[p].pc)
  }

  /** What one event may make of a call to go online. */
  predicate ProcMoves(a: Proc, b: Proc, d: DriverId, let: bool) {
    && b.cmd == a.cmd
    && (a.cmd == GoOnline(d) ==>
      && (a.wrote ==> b.wrote) && (b.wrote && !a.wrote ==> a.pc.Saving?)
      && (Ahead(b.pc) ==> Ahead(a.pc) || let))
  }

  ghost predicate Moves(s: State, s': State, d: DriverId) {
    && (forall q :: q in s.procs ==> q in s'.procs && ProcMoves(s.procs[q], s'.procs[q], d, MayOperate(s, d)))
    && (forall q :: q in s'.procs && q !in s.procs ==> !s'.procs[q].wrote && !Ahead(s'.procs[q].pc))
    && (d in s'.drivers <==> d in s.drivers) && (MayOperate(s', d) <==> MayOperate(s, d))
    && (Suspended(s', d) <==> Suspended(s, d) && WroteOnline(s', d) <= WroteOnline(s, d))
  }

  /** One process has moved, and did not write d online; the driver's standing is as it was. */
  lemma OneMoves(s: State, s': State, p: ProcId, d: DriverId)
    requires p in s.procs && OnlyProc(s, s', p) && p in s'.procs
    requires ProcMoves(s.procs[p], s'.procs[p], d, MayOperate(s, d))
    requires s.procs[p].cmd == GoOnline(d) ==> s'.procs[p].wrote == s.procs[p].wrote
    requires SameGate(s, s', d)
    ensures Moves(s, s', d)
  {
    assert WroteOnline(s', d) == WroteOnline(s, d);
  }

  /** Whether d is blocked, and may operate, is as it was. */
  ghost predicate SameGate(s: State, s': State, d: DriverId) {
    && (d in s'.drivers <==> d in s.drivers)
    && (d in s.drivers ==>
      && s'.drivers[d].mayOperate == s.drivers[d].mayOperate
      && (s'.drivers[d].status == Blocked <==> s.drivers[d].status == Blocked))
  }

  lemma NobodyMoves(s: State, s': State, d: DriverId)
    requires forall q :: q in s.procs ==> q in s'.procs && s'.procs[q] == s.procs[q]
    requires forall q :: q in s'.procs && q !in s.procs ==> !s'.procs[q].wrote && !Ahead(s'.procs[q].pc)
    requires SameGate(s, s', d)
    ensures Moves(s, s', d)
  {
    assert WroteOnline(s', d) == WroteOnline(s, d);
  }

  lemma NextMoves(s: State, e: Event, d: DriverId)
    requires Inv(s) && !(e.Review? && e.d == d)
    ensures Moves(s, Next(s, e), d)
  {
    hide Inv, ProcStep, Connect, RaiseStep, MuteStep, ReviewStep, TireStep, Moves;
    var s' := Next(s, e);
    match e {
      case Submit(p, cmd) =>
        ConnectedIsNew(s, cmd);
        NobodyMoves(s, s', d);
      case Step(p, otp, newTrip) =>
        if p in s.procs {
          InvProc(s, p);
          if s.procs[p].cmd.GoOnline? || s.procs[p].cmd.GoOffline? {
            ToggleMoves(s, p, otp, newTrip, d);
          } else {
            OtherStepQuiet(s, p, otp, newTrip, d);
            OneMoves(s, s', p, d);
          }
        } else {
          NobodyMoves(s, s', d);
        }
      case Raise(p) =>
        if p in s.procs {
          RaisedProc(s, p);
          OneMoves(s, s', p, d);
        } else {
          NobodyMoves(s, s', d);
        }
      case Mute(p) =>
        if p in s.procs {
          MutedProc(s, p);
          OneMoves(s, s', p, d);
        } else {
          NobodyMoves(s, s', d);
        }
      case Review(c, standing) =>
        ReviewLeavesProcs(s, c, standing);
        NobodyMoves(s, s', d);
      case Tire(c, overCap) =>
        TireLeavesGate(s, c, overCap, d);
        NobodyMoves(s, s', d);
      case Tick(n) =>
        NobodyMoves(s, s', d);
    }
  }

  lemma ConnectedIsNew(s: State, cmd: Command)
    ensures !Connect(s, cmd).wrote && !Ahead(Connect(s, cmd).pc)
  {
  }

  lemma TireLeavesGate(s: State, c: DriverId, overCap: bool, d: DriverId)
    ensures TireStep(s, c, overCap).procs == s.procs && SameGate(s, TireStep(s, c, overCap), d)
  {
  }

  lemma OtherStepQuiet(s: State, p: ProcId, otp: string, newTrip: TripId, d: DriverId)
    requires p in s.procs && !s.procs[p].cmd.GoOnline? && !s.procs[p].cmd.GoOffline?
    ensures Quiet(s, ProcStep(s, p, otp, newTrip), p, d)
  {
    hide AcceptStep, UpdateStep, CashStep, TimeOutStep, BookStep, MovesOnly;
    match s.procs[p].cmd {
      case AcceptTrip(_, _, _) => AcceptQuiet(s, p, otp, d);
      case UpdateTrip(_, _, _, _, _) => UpdateQuiet(s, p, d);
      case ConfirmCash(_, _, _) => CashQuiet(s, p, d);
      case TimeOutTrip(_) => TimeOutQuiet(s, p, d);
      case BookTrip(_, _, _) => BookQuiet(s, p, newTrip, d);
      case _ =>
    }
  }

  ghost predicate Quiet(s: State, s': State, p: ProcId, d: DriverId)
    requires p in s.procs
  {
    p in s'.procs && s'.procs[p].cmd == s.procs[p].cmd && SameGate(s, s', d)
  }

  lemma AcceptQuiet(s: State, p: ProcId, otp: string, d: DriverId)
    requires p in s.procs && s.procs[p].cmd.AcceptTrip?
    ensures Quiet(s, AcceptStep(s, p, otp), p, d)
  {
    hide MovesOnly, OnlyProc, OnAnotherTrip, Eligible, AcceptRow, WithPc, Finish, LockTrip, LockDriver, Commit;
  }

  lemma UpdateQuiet(s: State, p: ProcId, d: DriverId)
    requires p in s.procs && s.procs[p].cmd.UpdateTrip?
    ensures Quiet(s, UpdateStep(s, p), p, d)
  {
    hide MovesOnly, OnlyProc, Refusal, Decide, AdvanceRow, WithPc, Finish, LockTrip, LockDriver, Commit;
  }

  lemma CashQuiet(s: State, p: ProcId, d: DriverId)
    requires p in s.procs && s.procs[p].cmd.ConfirmCash?
    ensures Quiet(s, CashStep(s, p), p, d)
  {
    hide MovesOnly, OnlyProc, Refusal, DecideCash, CashRow, WithPc, Finish, LockTrip, Commit;
  }

  lemma TimeOutQuiet(s: State, p: ProcId, d: DriverId)
    requires p in s.procs && s.procs[p].cmd.TimeOutTrip?
    ensures Quiet(s, TimeOutStep(s, p), p, d)
  {
    hide MovesOnly, OnlyProc, TimeoutRow, WithPc, Finish, LockTrip, Commit;
  }

  lemma BookQuiet(s: State, p: ProcId, newTrip: TripId, d: DriverId)
    requires p in s.procs && s.procs[p].cmd.BookTrip?
    ensures Quiet(s, BookStep(s, p, newTrip), p, d)
  {
    hide MovesOnly, OnlyProc, HasBooking;
  }

  lemma ToggleMoves(s: State, p: ProcId, otp: string, newTrip: TripId, d: DriverId)
    requires p in s.procs && ProcOk(s, p) && (s.procs[p].cmd.GoOnline? || s.procs[p].cmd.GoOffline?)
    ensures Moves(s, ProcStep(s, p, otp, newTrip), d)
  {
    hide ToggleStep, Moves, SubscribedOk, HoldsOk, PcOk;
    var s' := ToggleStep(s, p);
    assert s' == ProcStep(s, p, otp, newTrip);
    ToggleOutcome(s, p, d);
    if s.procs[p].cmd == GoOnline(d) && s.procs[p].pc.Saving? && s'.procs[p].pc.Saved? {
      WritesOnline(s, s', p, d);
    } else {
      OneMoves(s, s', p, d);
    }
  }

  lemma ToggleOutcome(s: State, p: ProcId, d: DriverId)
    requires p in s.procs && (s.procs[p].cmd.GoOnline? || s.procs[p].cmd.GoOffline?)
    ensures var s' := ToggleStep(s, p);
      OnlyProc(s, s', p) && p in s'.procs && ProcMoves(s.procs[p], s'.procs[p], d, MayOperate(s, d))
    ensures var s' := ToggleStep(s, p);
      if s.procs[p].cmd == GoOnline(d) && s.procs[p].pc.Saving? && s'.procs[p].pc.Saved? then
        s'.procs[p].wrote && d in s.drivers && d in s'.drivers && s'.drivers[d].status == Online
        && s'.drivers[d].mayOperate == s.drivers[d].mayOperate
      else
        (s.procs[p].cmd == GoOnline(d) ==> s'.procs[p].wrote == s.procs[p].wrote) && SameGate(s, s', d)
  {
    hide MovesOnly, Finish;
  }

  lemma WritesOnline(s: State, s': State, p: ProcId, d: DriverId)
    requires p in s.procs && OnlyProc(s, s', p) && p in s'.procs && s.procs[p].cmd == GoOnline(d)
    requires ProcMoves(s.procs[p], s'.procs[p], d, MayOperate(s, d)) && !s.procs[p].wrote && s'.procs[p].wrote
    requires d in s.drivers && d in s'.drivers && s'.drivers[d].status == Online
      && s'.drivers[d].mayOperate == s.drivers[d].mayOperate
    ensures Moves(s, s', d)
  {
    assert p in WroteOnline(s', d) && p !in WroteOnline(s, d);
  }

  /** Does no operator, sweep or lockout judge the driver anew? */
  predicate NotReviewed(events: seq<Event>, d: DriverId) {
    forall e :: e in events ==> !(e.Review? && e.d == d)
  }

  lemma MovesKeeps(s: State, s': State, d: DriverId)
    requires Moves(s, s', d)
    ensures WroteOnline(s, d) <= WroteOnline(s', d)
    ensures Suspended(s', d) <==> Suspended(s, d) && WroteOnline(s', d) == WroteOnline(s, d)
    ensures MayOperate(s', d) <==> MayOperate(s, d)
    ensures !MayOperate(s, d) ==> Underway(s', d) + WroteOnline(s', d) <= Underway(s, d) + WroteOnline(s, d)
  {
  }

  /** From any moment of any run, nobody judging the driver anew: a suspension survives exactly as long as
      no call to go online writes. Going offline, trips and everything else leave it; one such write lifts
      it, whatever its call answers. */
  lemma {:induction false} SuspensionSurvives(s: State, events: seq<Event>, d: DriverId)
    requires Inv(s) && Suspended(s, d) && NotReviewed(events, d)
    ensures WroteOnline(s, d) <= WroteOnline(Run(s, events), d)
    ensures Suspended(Run(s, events), d) <==> WroteOnline(Run(s, events), d) == WroteOnline(s, d)
    decreases |events|
  {
    hide Suspended, WroteOnline, Next, Inv, Moves;
    if events != [] {
      var before, last := events[..|events| - 1], events[|events| - 1];
      SuspensionSurvives(s, before, d);
      RunKeepsInvFrom(s, before);
      NextMoves(Run(s, before), last, d);
      MovesKeeps(Run(s, before), Next(Run(s, before), last), d);
    }
  }

  /** While a driver may not operate, sockets are refused on connecting: only a call whose socket loaded its
      copy of the driver before can still write the driver online, and so lift a suspension. */
  lemma {:induction false} OnlyStaleCallsLift(s: State, events: seq<Event>, d: DriverId)
    requires Inv(s) && !MayOperate(s, d) && NotReviewed(events, d)
    ensures !MayOperate(Run(s, events), d)
    ensures Underway(Run(s, events), d) + WroteOnline(Run(s, events), d) <= Underway(s, d) + WroteOnline(s, d)
    decreases |events|
  {
    hide MayOperate, Underway, WroteOnline, Next, Inv, Moves;
    if events != [] {
      var before, last := events[..|events| - 1], events[|events| - 1];
      OnlyStaleCallsLift(s, before, d);
      RunKeepsInvFrom(s, before);
      NextMoves(Run(s, before), last, d);
      MovesKeeps(Run(s, before), Next(Run(s, before), last), d);
    }
  }

  /** With no such call underway, a suspension that takes the right to operate away is kept in every run. */
  lemma SuspensionIsSafe(s: State, events: seq<Event>, d: DriverId)
    requires Inv(s) && Suspended(s, d) && !MayOperate(s, d) && Underway(s, d) == {} && NotReviewed(events, d)
    ensures Suspended(Run(s, events), d)
  {
    hide Inv, Suspended, MayOperate;
    SuspensionSurvives(s, events, d);
    OnlyStaleCallsLift(s, events, d);
    assert Underway(s, d) + WroteOnline(s, d) == WroteOnline(s, d);
  }

  /** A run in which one does lift it: the socket loads its copy, the driver is suspended, the call writes,
      and opening the session raises, so that the call is answered as a failure. */
  lemma StaleCallLifts()
    ensures var s := State(map[], map[0 := Driver(Off, true, true, 0, false, 0)], map[], map[], map[], 0);
      var early := [Submit(0, GoOnline(0)), Step(0, "", 0), Review(0, Driver(Blocked, false, true, 0, false, 0))];
      var late := [Step(0, "", 0), Step(0, "", 0), Raise(0)];
      && Initial(s)
      && Suspended(Run(s, early), 0) && !MayOperate(Run(s, early), 0)
      && !Suspended(Run(s, early + late), 0)
      && 0 in Run(s, early + late).procs && Run(s, early + late).procs[0].pc == Done(Toggled(false))
  {
    var s := State(map[], map[0 := Driver(Off, true, true, 0, false, 0)], map[], map[], map[], 0);
    var early := [Submit(0, GoOnline(0)), Step(0, "", 0), Review(0, Driver(Blocked, false, true, 0, false, 0))];
    var late := [Step(0, "", 0), Step(0, "", 0), Raise(0)];
    var mid := LoadsThenSuspended(s);
    RunAppend(s, early, late);
    WritesThenRaises(mid);
  }

  /** Three events, one by one. */
  lemma RunThree(s: State, a: Event, b: Event, c: Event)
    ensures Run(s, [a, b, c]) == Next(Next(Next(s, a), b), c)
  {
    assert [a, b, c] == [a] + ([b] + ([c] + []));
    RunFirst(s, a, [b] + ([c] + []));
    RunFirst(Next(s, a), b, [c] + []);
    RunFirst(Next(Next(s, a), b), c, []);
  }

  lemma LoadsThenSuspended(s: State) returns (mid: State)
    requires s == State(map[], map[0 := Driver(Off, true, true, 0, false, 0)], map[], map[], map[], 0)
    ensures mid
      == Run(s, [Submit(0, GoOnline(0)), Step(0, "", 0), Review(0, Driver(Blocked, false, true, 0, false, 0))])
    ensures mid.drivers == map[0 := Driver(Blocked, false, true, 0, false, 0)] && mid.driverLock == map[]
      && mid.now == 0
    ensures mid.procs == map[0 := Proc(GoOnline(0), Loaded(Driver(Off, true, true, 0, false, 0)), NoPart, false, false)]
  {
    hide MovesOnly, OnlyProc, Run;
    var standing := Driver(Blocked, false, true, 0, false, 0);
    RunThree(s, Submit(0, GoOnline(0)), Step(0, "", 0), Review(0, standing));
    mid := Next(Next(Next(s, Submit(0, GoOnline(0))), Step(0, "", 0)), Review(0, standing));
  }

  lemma WritesThenRaises(mid: State)
    requires mid.drivers == map[0 := Driver(Blocked, false, true, 0, false, 0)] && mid.driverLock == map[]
      && mid.now == 0
    requires mid.procs
      == map[0 := Proc(GoOnline(0), Loaded(Driver(Off, true, true, 0, false, 0)), NoPart, false, false)]
    ensures var r := Run(mid, [Step(0, "", 0), Step(0, "", 0), Raise(0)]);
      !Suspended(r, 0) && 0 in r.procs && r.procs[0].pc == Done(Toggled(false))
  {
    hide Next, Run;
    RunThree(mid, Step(0, "", 0), Step(0, "", 0), Raise(0));
    LoadedGoesOn(mid, 0);
    var one := Next(mid, Step(0, "", 0));
    SavingGoesOn(one, 0);
    SavedRaises(Next(one, Step(0, "", 0)), 0);
  }

  lemma LoadedGoesOn(s: State, p: ProcId)
    requires p in s.procs && s.procs[p].cmd.GoOnline? && s.procs[p].pc.Loaded?
      && s.procs[p].pc.snapshot.lockedUntil <= s.now
    requires s.procs[p].cmd.driver in s.drivers && !s.drivers[s.procs[p].cmd.driver].overCap
    ensures var s' := Next(s, Step(p, "", 0));
      && p in s'.procs && s'.procs[p] == s.procs[p].(pc := Saving)
      && s'.drivers == s.drivers && s'.driverLock == s.driverLock
  {
    hide MovesOnly, OnlyProc;
  }

  lemma SavingGoesOn(s: State, p: ProcId)
    requires p in s.procs && s.procs[p].cmd.GoOnline? && s.procs[p].pc.Saving?
    requires s.procs[p].cmd.driver in s.drivers && s.procs[p].cmd.driver !in s.driverLock
    ensures var s' := Next(s, Step(p, "", 0)); var d := s.procs[p].cmd.driver;
      && p in s'.procs && s'.procs[p] == s.procs[p].(pc := Saved, wrote := true)
      && d in s'.drivers && s'.drivers[d].status == Online
  {
    hide MovesOnly, OnlyProc;
  }

  lemma SavedRaises(s: State, p: ProcId)
    requires p in s.procs && s.procs[p].cmd.GoOnline? && s.procs[p].pc.Saved?
    ensures var s' := Next(s, Raise(p));
      p in s'.procs && s'.procs[p].pc == Done(Toggled(false)) && s'.drivers == s.drivers
  {
    hide OnlyProc;
  }

  // ---- A reason that is never given --------------------------------------------------------------------

  /** In no run is a call refused because the trip is already completed: a cancel of a completed trip is
      refused as an invalid transition before that is looked at. */
  lemma NeverAlreadyCompleted(s: State, events: seq<Event>, p: ProcId)
    requires Initial(s) && p in Run(s, events).procs
    ensures Run(s, events).procs[p].pc != Done(Rejected(TripAlreadyCompleted))
  {
    RunKeepsInv(s, events);
    InvProc(Run(s, events), p);
  }
}
