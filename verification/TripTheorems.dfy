/** What holds over whole runs of the trip protocol, whatever the interleaving, the retries, the
    exceptions and the lost replies. */
module TripTheorems {
  import opened TripRows
  import opened TripProtocol
  import opened TripInvariant
  import opened TripPreservation

  // ---- One step seen from the tables -----------------------------------------------------------

  /** Did trip `t` become completed under driver `d` between the two states? */
  ghost predicate NewlyCompleted(s: State, s': State, t: TripId, d: DriverId) {
    && t in s'.trips && s'.trips[t].status == Completed && s'.trips[t].driver == Some(d)
    && (t in s.trips ==> s.trips[t].status != Completed)
  }

  ghost predicate SameRowsBut(s: State, s': State, t: TripId) {
    && (forall u :: u in s.trips && u != t ==> u in s'.trips && s'.trips[u] == s.trips[u])
    && (forall u :: u in s'.trips && u != t ==> u in s.trips)
    && (t in s.trips ==> t in s'.trips && Evolves(s.trips[t], s'.trips[t]))
    && (t !in s.trips && t in s'.trips ==> s'.trips[t].status == Requested)
  }

  ghost predicate SameCountsBut(s: State, s': State, t: TripId) {
    && s'.drivers.Keys == s.drivers.Keys
    && (forall d :: d in s.drivers ==>
          s'.drivers[d].totalTrips == s.drivers[d].totalTrips + (if NewlyCompleted(s, s', t, d) then 1 else 0))
  }

  /** One scheduler decision touches at most one trip row, moves it legally, and counts a
      completion for a driver exactly when it completes a trip of that driver. */
  lemma NextTouchesOneRow(s: State, e: Event) returns (t: TripId)
    requires Inv(s)
    ensures SameRowsBut(s, Next(s, e), t) && SameCountsBut(s, Next(s, e), t) && s.now <= Next(s, e).now
  {
    hide Inv, RowsOk, ProcOk, ProcStep, Connect, SameRowsBut, SameCountsBut;
    if e.Step? && e.p in s.procs {
      InvProc(s, e.p);
      t := StepTouchesOneRow(s, e.p, e.otp, e.newTrip);
    } else if e.Review? {
      t := 0;
      ReviewTouchesNoRow(s, e.d, e.standing);
    } else if e.Tire? {
      t := 0;
      TireTouchesNoRow(s, e.d, e.overCap);
    } else {
      t := 0;
      NothingTouched(s, Next(s, e), t);
    }
  }

  lemma StepTouchesOneRow(s: State, p: ProcId, otp: string, newTrip: TripId) returns (t: TripId)
    requires RowsOk(s) && p in s.procs && ProcOk(s, p)
    ensures var s' := ProcStep(s, p, otp, newTrip); SameRowsBut(s, s', t) && SameCountsBut(s, s', t) && s.now <= s'.now
  {
    var pr := s.procs[p];
    if pr.pc.Staged? {
      t := pr.cmd.trip;
      CommitTouchesOneRow(s, p, otp, newTrip);
    } else {
      hide ProcOk;
      t := newTrip;
      QuietStepTouchesNoRow(s, p, otp, newTrip);
    }
  }

  lemma QuietStepTouchesNoRow(s: State, p: ProcId, otp: string, newTrip: TripId)
    requires p in s.procs && !s.procs[p].pc.Staged?
    ensures var s' := ProcStep(s, p, otp, newTrip);
      SameRowsBut(s, s', newTrip) && SameCountsBut(s, s', newTrip) && s.now <= s'.now
  {
    hide AcceptStep, UpdateStep, CashStep, TimeOutStep, BookStep, ToggleStep, SameRowsBut, SameCountsBut;
    if s.procs[p].cmd.BookTrip? {
      BookTouchesNewRow(s, p, newTrip);
    } else if s.procs[p].cmd.GoOnline? || s.procs[p].cmd.GoOffline? {
      ToggleTouchesNoRow(s, p, newTrip);
    } else {
      NothingTouched(s, ProcStep(s, p, otp, newTrip), newTrip);
    }
  }

  lemma NothingTouched(s: State, s': State, t: TripId)
    requires SameRows(s, s')
    ensures SameRowsBut(s, s', t) && SameCountsBut(s, s', t)
  {
  }

  lemma ReviewTouchesNoRow(s: State, d: DriverId, standing: Driver)
    ensures SameRowsBut(s, ReviewStep(s, d, standing), 0) && SameCountsBut(s, ReviewStep(s, d, standing), 0)
  {
    EvolvesItself(s.trips);
    hide Evolves;
  }

  lemma TireTouchesNoRow(s: State, d: DriverId, overCap: bool)
    ensures SameRowsBut(s, TireStep(s, d, overCap), 0) && SameCountsBut(s, TireStep(s, d, overCap), 0)
  {
    EvolvesItself(s.trips);
    hide Evolves;
  }

  lemma BookTouchesNewRow(s: State, p: ProcId, newTrip: TripId)
    requires p in s.procs && s.procs[p].cmd.BookTrip?
    ensures SameRowsBut(s, BookStep(s, p, newTrip), newTrip) && SameCountsBut(s, BookStep(s, p, newTrip), newTrip)
  {
    hide MovesOnly, HasBooking;
  }

  lemma ToggleTouchesNoRow(s: State, p: ProcId, newTrip: TripId)
    requires p in s.procs && (s.procs[p].cmd.GoOnline? || s.procs[p].cmd.GoOffline?)
    ensures SameRowsBut(s, ToggleStep(s, p), newTrip) && SameCountsBut(s, ToggleStep(s, p), newTrip)
  {
    EvolvesItself(s.trips);
    hide MovesOnly, OnlyProc, Evolves;
  }

  lemma CommitTouchesOneRow(s: State, p: ProcId, otp: string, newTrip: TripId)
    requires RowsOk(s) && p in s.procs && ProcOk(s, p) && HoldsTrip(s.procs[p]) && s.procs[p].pc.Staged?
    ensures var s' := ProcStep(s, p, otp, newTrip);
      SameRowsBut(s, s', s.procs[p].cmd.trip) && SameCountsBut(s, s', s.procs[p].cmd.trip) && s.now <= s'.now
  {
    hide RowsOk, ProcOk, Commit, SameRowsBut, SameCountsBut;
    var counted := StagedRow(s, p, otp, newTrip);
    CommitTouches(s, p, s.procs[p].cmd.trip, s.procs[p].pc.row, counted);
  }

  /** A staged row is one legal transition away from the stored one, and its commit counts the driver
      exactly when it completes the trip. */
  lemma StagedRow(s: State, p: ProcId, otp: string, newTrip: TripId) returns (counted: Option<DriverId>)
    requires RowsOk(s) && p in s.procs && ProcOk(s, p) && HoldsTrip(s.procs[p]) && s.procs[p].pc.Staged?
    ensures var pr := s.procs[p];
      && pr.cmd.trip in s.trips && Evolves(s.trips[pr.cmd.trip], pr.pc.row)
      && (counted.Some? ==> counted.value in s.drivers)
      && ProcStep(s, p, otp, newTrip) == Commit(s, p, pr.cmd.trip, pr.pc.row, counted)
    ensures var pr := s.procs[p];
      var completes := pr.pc.row.status == Completed && s.trips[pr.cmd.trip].status != Completed;
      counted == if completes then pr.pc.row.driver else None
  {
    var pr := s.procs[p];
    counted := if pr.cmd.UpdateTrip? && Target(pr.cmd.verb) == Completed then pr.pc.row.driver else None;
    hide MovesOnly, OnlyProc, SubscribedOk, WroteOk, HoldsOk, FreeBy, RowOk, Commit;
    match pr.cmd {
      case AcceptTrip(_, _, _) => AcceptStaged(s, pr);
      case UpdateTrip(_, _, _, _, _) => UpdateStagedRow(s, pr);
      case ConfirmCash(_, _, _) => CashStaged(s, pr);
      case TimeOutTrip(_) => TimeOutStaged(s, pr);
      case _ =>
    }
  }

  lemma AcceptStaged(s: State, pr: Proc)
    requires RowsOk(s) && pr.cmd.AcceptTrip? && pr.pc.Staged? && AcceptOk(s, pr)
    ensures pr.cmd.trip in s.trips && Evolves(s.trips[pr.cmd.trip], pr.pc.row) && pr.pc.row.status != Completed
  {
    AcceptKeepsRow(s.trips[pr.cmd.trip], pr.cmd.profile.value, pr.pc.row.otp.value, pr.pc.at, s.now);
  }

  lemma UpdateStagedRow(s: State, pr: Proc)
    requires RowsOk(s) && pr.cmd.UpdateTrip? && pr.pc.Staged? && UpdateOk(s, pr)
    ensures pr.cmd.trip in s.trips && Evolves(s.trips[pr.cmd.trip], pr.pc.row)
      && pr.pc.row.status == Target(pr.cmd.verb)
    ensures s.trips[pr.cmd.trip].status != Completed && pr.pc.row.driver == s.trips[pr.cmd.trip].driver
    ensures pr.pc.row.driver.Some? ==> pr.pc.row.driver.value in s.drivers
  {
    var row := s.trips[pr.cmd.trip];
    AdvanceKeepsRow(row, Target(pr.cmd.verb), CancellerOf(row, pr.cmd.user), pr.pc.at, s.now);
  }

  lemma CashStaged(s: State, pr: Proc)
    requires RowsOk(s) && pr.cmd.ConfirmCash? && pr.pc.Staged? && CashOk(s, pr)
    ensures pr.cmd.trip in s.trips && Evolves(s.trips[pr.cmd.trip], pr.pc.row)
      && s.trips[pr.cmd.trip].status == pr.pc.row.status
  {
    CashKeepsRow(s.trips[pr.cmd.trip], s.now);
  }

  lemma TimeOutStaged(s: State, pr: Proc)
    requires RowsOk(s) && pr.cmd.TimeOutTrip? && pr.pc.Staged? && TimeOutOk(s, pr)
    ensures pr.cmd.trip in s.trips && Evolves(s.trips[pr.cmd.trip], pr.pc.row) && pr.pc.row.status != Completed
  {
    TimeoutKeepsRow(s.trips[pr.cmd.trip], pr.pc.at, s.now);
  }

  lemma CommitTouches(s: State, p: ProcId, t: TripId, row: Trip, counted: Option<DriverId>)
    requires p in s.procs && t in s.trips && Evolves(s.trips[t], row)
    requires counted == if row.status == Completed && s.trips[t].status != Completed then row.driver else None
    requires counted.Some? ==> counted.value in s.drivers
    ensures var s' := Commit(s, p, t, row, counted); SameRowsBut(s, s', t) && SameCountsBut(s, s', t) && s'.now == s.now
  {
    hide Evolves, OnlyProc;
  }

  // ---- Runs ------------------------------------------------------------------------------------

  lemma {:induction false} RunAppend(s: State, a: seq<Event>, b: seq<Event>)
    ensures Run(s, a + b) == Run(Run(s, a), b)
    decreases |b|
  {
    if b == [] {
      assert a + b == a;
    } else {
      assert (a + b)[..|a + b| - 1] == a + b[..|b| - 1];
      RunAppend(s, a, b[..|b| - 1]);
    }
  }

  lemma {:induction false} RunKeepsInvFrom(s: State, events: seq<Event>)
    requires Inv(s)
    ensures Inv(Run(s, events))
    decreases |events|
  {
    if events != [] {
      RunKeepsInvFrom(s, events[..|events| - 1]);
      NextKeepsInv(Run(s, events[..|events| - 1]), events[|events| - 1]);
    }
  }

  /** Over any run, every row that exists stays, and only ever evolves legally. */
  lemma {:induction false} RowsEvolve(s: State, events: seq<Event>, t: TripId)
    requires Inv(s) && t in s.trips
    ensures t in Run(s, events).trips && Evolves(s.trips[t], Run(s, events).trips[t])
    decreases |events|
  {
    if events != [] {
      var mid := Run(s, events[..|events| - 1]);
      RowsEvolve(s, events[..|events| - 1], t);
      RunKeepsInvFrom(s, events[..|events| - 1]);
      var touched := NextTouchesOneRow(mid, events[|events| - 1]);
      assert Evolves(mid.trips[t], Run(s, events).trips[t]);
      EvolvesTransitive(s.trips[t], mid.trips[t], Run(s, events).trips[t]);
    }
  }

  // ---- Who may move a trip -----------------------------------------------------------------------

  /** What it takes to move a stored trip from one status to another: to accept, a driver in good standing
      with no other active trip; to reach, start or complete, the assigned driver, and to start also
      the trip's code; to cancel, the rider, the assigned driver, or the timeout of an open trip. */
  ghost predicate Authorised(s: State, cmd: Command, t: TripId, to: Status) {
    && t in s.trips
    && match cmd
       case AcceptTrip(_, profile, trip) =>
         && trip == t && to == Accepted && Open(s.trips[t])
         && profile.Some? && profile.value in s.drivers && InGoodStanding(s.drivers[profile.value], s.now)
         && !OnAnotherTrip(s.trips, profile.value, t)
       case UpdateTrip(user, profile, trip, verb, otp) =>
         && trip == t && to == Target(verb) && Allowed(s.trips[t].status, to)
         && (IsAssigned(s.trips[t], profile) || (verb == CancelRide && s.trips[t].rider == user))
         && (verb == StartRide ==> otp == OtpText(s.trips[t].otp))
       case TimeOutTrip(trip) => trip == t && to == Cancelled && Open(s.trips[t])
       case _ => false
  }

  /** In every run, whatever changes the status of a stored trip is a step of a command that is
      authorised to, judged on the rows as they are when it commits. (Whether an accepting driver's
      sessions pass the cap is judged once, with the driver's row locked, and may have changed by then.) */
  lemma EveryTransitionIsAuthorised(s: State, events: seq<Event>, e: Event, t: TripId)
    requires Initial(s)
    requires var r := Run(s, events);
      t in r.trips && t in Next(r, e).trips && Next(r, e).trips[t].status != r.trips[t].status
    ensures var r := Run(s, events);
      e.Step? && e.p in r.procs && Authorised(r, r.procs[e.p].cmd, t, Next(r, e).trips[t].status)
  {
    hide Inv, ProcOk, RowsOk, Next, ProcStep, Authorised;
    RunKeepsInv(s, events);
    var r := Run(s, events);
    OnlyStepsMove(r, e, t);
    InvProc(r, e.p);
    CommitIsAuthorised(r, e.p, e.otp, e.newTrip, t);
  }

  lemma OnlyStepsMove(s: State, e: Event, t: TripId)
    requires t in s.trips && t in Next(s, e).trips && Next(s, e).trips[t].status != s.trips[t].status
    ensures e.Step? && e.p in s.procs && Next(s, e) == ProcStep(s, e.p, e.otp, e.newTrip)
  {
    hide ProcStep, Connect;
  }

  lemma CommitIsAuthorised(s: State, p: ProcId, otp: string, newTrip: TripId, t: TripId)
    requires RowsOk(s) && p in s.procs && ProcOk(s, p)
    requires var s' := ProcStep(s, p, otp, newTrip);
      t in s.trips && t in s'.trips && s'.trips[t].status != s.trips[t].status
    ensures Authorised(s, s.procs[p].cmd, t, ProcStep(s, p, otp, newTrip).trips[t].status)
  {
    hide RowsOk, ProcOk, ProcStep, Commit, Evolves, Authorised;
    if s.procs[p].pc.Staged? {
      StagedHolds(s, p);
      var counted := StagedRow(s, p, otp, newTrip);
      CommitMoves(s, p, s.procs[p].cmd.trip, s.procs[p].pc.row, counted);
      StagedIsAuthorised(s, p);
    } else {
      QuietKeepsStatus(s, p, otp, newTrip, t);
    }
  }

  lemma StagedHolds(s: State, p: ProcId)
    requires p in s.procs && ProcOk(s, p) && s.procs[p].pc.Staged?
    ensures HoldsTrip(s.procs[p])
  {
  }

  lemma CommitMoves(s: State, p: ProcId, t: TripId, row: Trip, counted: Option<DriverId>)
    requires p in s.procs && t in s.trips
    ensures Commit(s, p, t, row, counted).trips == s.trips[t := row]
  {
  }

  lemma QuietKeepsStatus(s: State, p: ProcId, otp: string, newTrip: TripId, t: TripId)
    requires p in s.procs && !s.procs[p].pc.Staged? && t in s.trips
    ensures var s' := ProcStep(s, p, otp, newTrip); t in s'.trips && s'.trips[t] == s.trips[t]
  {
    hide AcceptStep, UpdateStep, CashStep, TimeOutStep, MovesOnly;
  }

  lemma StagedIsAuthorised(s: State, p: ProcId)
    requires RowsOk(s) && p in s.procs && ProcOk(s, p) && s.procs[p].pc.Staged?
    requires s.procs[p].cmd.trip in s.trips && s.procs[p].pc.row.status != s.trips[s.procs[p].cmd.trip].status
    ensures Authorised(s, s.procs[p].cmd, s.procs[p].cmd.trip, s.procs[p].pc.row.status)
  {
    hide RowOk, SubscribedOk, WroteOk, HoldsOk;
    var cmd := s.procs[p].cmd;
    if cmd.AcceptTrip? {
      FreeIsNotOnAnother(s, cmd.profile.value, cmd.trip, s.procs[p].pc.at);
    }
  }

  lemma FreeIsNotOnAnother(s: State, d: DriverId, t: TripId, at: Time)
    requires RowsOk(s) && FreeBy(s.trips, d, t, at)
    ensures !OnAnotherTrip(s.trips, d, t)
  {
    forall u | u in s.trips && u != t && s.trips[u].driver == Some(d) ensures !Active(s.trips[u].status) {
      assert RowOk(s.trips[u], s.now);
      assert EndOf(s.trips[u]).Some?;
    }
  }

  // ---- One driver, one ride ----------------------------------------------------------------------

  /** In every reachable state, no driver is committed to two trips. */
  lemma DriverExclusivity(s: State, events: seq<Event>, t: TripId, u: TripId)
    requires Initial(s)
    requires t in Run(s, events).trips && u in Run(s, events).trips && t != u
    requires Active(Run(s, events).trips[t].status) && Active(Run(s, events).trips[u].status)
    ensures var r := Run(s, events); r.trips[t].driver != r.trips[u].driver
  {
    RunKeepsInv(s, events);
    var r := Run(s, events);
    assert RowOk(r.trips[t], r.now) && RowOk(r.trips[u], r.now);
  }

  /** Over every run, the [accepted, finished] intervals of one driver's trips do not overlap: of
      two finished trips, the one accepted later was accepted no earlier than the other's end. */
  lemma IntervalsNeverOverlap(s: State, events: seq<Event>, t: TripId, u: TripId)
    requires Initial(s)
    requires t in Run(s, events).trips && u in Run(s, events).trips && t != u
    requires Run(s, events).trips[t].driver.Some? && Run(s, events).trips[t].driver == Run(s, events).trips[u].driver
    requires EndOf(Run(s, events).trips[t]).Some? && EndOf(Run(s, events).trips[u]).Some?
    ensures var r := Run(s, events); r.trips[t].acceptedAt.Some? && r.trips[u].acceptedAt.Some?
    ensures var r := Run(s, events);
      r.trips[t].acceptedAt.value < r.trips[u].acceptedAt.value ==>
          EndOf(r.trips[t]).value <= r.trips[u].acceptedAt.value
    ensures var r := Run(s, events);
      EndOf(r.trips[t]).value <= r.trips[u].acceptedAt.value || EndOf(r.trips[u]).value <= r.trips[t].acceptedAt.value
  {
    RunKeepsInv(s, events);
    var r := Run(s, events);
    assert RowOk(r.trips[t], r.now) && RowOk(r.trips[u], r.now);
    assert Before(r.trips[t], r.trips[u]) || Before(r.trips[u], r.trips[t]);
  }

  // ---- Lock waits ----------------------------------------------------------------------------------

  /** `p` cannot take its next step because `q` has the row lock it needs. */
  ghost predicate WaitsFor(s: State, p: ProcId, q: ProcId) {
    && p in s.procs
    && var pr := s.procs[p];
       || ((pr.cmd.AcceptTrip? || pr.cmd.UpdateTrip? || pr.cmd.ConfirmCash? || pr.cmd.TimeOutTrip?) && pr.pc.WantTrip?
           && pr.cmd.trip in s.trips && pr.cmd.trip in s.tripLock && s.tripLock[pr.cmd.trip] == q)
       || (pr.pc.WantDriver? && DriverWanted(pr).Some? && DriverWanted(pr).value in s.driverLock
           && s.driverLock[DriverWanted(pr).value] == q)
       || ((pr.cmd.GoOnline? || pr.cmd.GoOffline?) && pr.pc.Saving?
           && pr.cmd.driver in s.driverLock && s.driverLock[pr.cmd.driver] == q)
  }

  /** Locks are taken in one order, trip before driver; this is how far along it a process is. */
  function Depth(pr: Proc): nat {
    if HoldsDriver(pr) then 2 else if HoldsTrip(pr) then 1 else 0
  }

  lemma WaitsGoDeeper(s: State, p: ProcId, q: ProcId)
    requires Inv(s) && WaitsFor(s, p, q)
    ensures q in s.procs && Depth(s.procs[p]) < Depth(s.procs[q])
  {
    assert LocksOk(s);
    assert PcOk(s, p, s.procs[p]);
  }

  ghost predicate WaitChain(s: State, chain: seq<ProcId>) {
    forall i :: 0 <= i < |chain| - 1 ==> WaitsFor(s, chain[i], chain[i + 1])
  }

  lemma {:induction false} ChainGoesDeeper(s: State, chain: seq<ProcId>)
    requires Inv(s) && |chain| >= 1 && WaitChain(s, chain) && chain[0] in s.procs
    ensures chain[|chain| - 1] in s.procs
    ensures Depth(s.procs[chain[|chain| - 1]]) >= Depth(s.procs[chain[0]]) + |chain| - 1
    decreases |chain|
  {
    if |chain| > 1 {
      ChainGoesDeeper(s, chain[..|chain| - 1]);
      WaitsGoDeeper(s, chain[|chain| - 2], chain[|chain| - 1]);
    }
  }

  /** No reachable state has a cycle of lock waits, and no chain of waits joins more than three
      processes. */
  lemma NoWaitCycle(s: State, events: seq<Event>, chain: seq<ProcId>)
    requires Initial(s) && |chain| >= 2 && WaitChain(Run(s, events), chain)
    ensures chain[0] != chain[|chain| - 1]
    ensures |chain| <= 3
  {
    RunKeepsInv(s, events);
    assert WaitsFor(Run(s, events), chain[0], chain[1]);
    ChainGoesDeeper(Run(s, events), chain);
  }

  ghost predicate Unfinished(s: State, p: ProcId) {
    p in s.procs && !s.procs[p].pc.Done?
  }

  ghost predicate Waiting(s: State, p: ProcId) {
    exists q :: WaitsFor(s, p, q)
  }

  /** A process that waits for nobody advances when it is scheduled (given, for an insert, a row id
      nobody uses). */
  lemma StepAdvances(s: State, p: ProcId, otp: string, newTrip: TripId)
    requires Inv(s) && Unfinished(s, p) && !Waiting(s, p) && newTrip !in s.trips
    ensures var s' := ProcStep(s, p, otp, newTrip);
      p in s'.procs && StepsLeft(s'.procs[p].pc) < StepsLeft(s.procs[p].pc)
  {
    hide Inv, Waiting, RowsOk, SubscribedOk, WroteOk, HoldsOk, Refusal, AcceptStep, UpdateStep, CashStep,
        TimeOutStep, SameRows;
    InvProc(s, p);
    LocksAreFree(s, p);
    match s.procs[p].cmd {
      case AcceptTrip(_, _, _) => AcceptAdvances(s, p, otp);
      case UpdateTrip(_, _, _, _, _) => UpdateAdvances(s, p);
      case ConfirmCash(_, _, _) => CashAdvances(s, p);
      case TimeOutTrip(_) => TimeOutAdvances(s, p);
      case _ =>
    }
  }

  lemma CashAdvances(s: State, p: ProcId)
    requires p in s.procs && ProcOk(s, p) && s.procs[p].cmd.ConfirmCash? && !s.procs[p].pc.Done?
    requires s.procs[p].pc.WantTrip? && s.procs[p].cmd.trip in s.trips ==> s.procs[p].cmd.trip !in s.tripLock
    ensures var s' := CashStep(s, p); p in s'.procs && StepsLeft(s'.procs[p].pc) < StepsLeft(s.procs[p].pc)
  {
  }

  lemma TimeOutAdvances(s: State, p: ProcId)
    requires p in s.procs && ProcOk(s, p) && s.procs[p].cmd.TimeOutTrip? && !s.procs[p].pc.Done?
    requires s.procs[p].pc.WantTrip? && s.procs[p].cmd.trip in s.trips ==> s.procs[p].cmd.trip !in s.tripLock
    ensures var s' := TimeOutStep(s, p); p in s'.procs && StepsLeft(s'.procs[p].pc) < StepsLeft(s.procs[p].pc)
  {
  }

  lemma LocksAreFree(s: State, p: ProcId)
    requires Unfinished(s, p) && !Waiting(s, p)
    ensures var pr := s.procs[p];
      (pr.cmd.AcceptTrip? || pr.cmd.UpdateTrip? || pr.cmd.ConfirmCash? || pr.cmd.TimeOutTrip?)
          && pr.pc.WantTrip? && pr.cmd.trip in s.trips
      ==> pr.cmd.trip !in s.tripLock
    ensures var pr := s.procs[p];
      pr.pc.WantDriver? && DriverWanted(pr).Some? ==> DriverWanted(pr).value !in s.driverLock
    ensures var pr := s.procs[p];
      (pr.cmd.GoOnline? || pr.cmd.GoOffline?) && pr.pc.Saving?
      ==> pr.cmd.driver !in s.driverLock
  {
    var pr := s.procs[p];
    if pr.pc.WantDriver? && DriverWanted(pr).Some? && DriverWanted(pr).value in s.driverLock {
      assert WaitsFor(s, p, s.driverLock[DriverWanted(pr).value]);
    }
    if pr.cmd.GoOnline? || pr.cmd.GoOffline? {
      if pr.cmd.driver in s.driverLock {
        var holder := s.driverLock[pr.cmd.driver];
        assert !WaitsFor(s, p, holder);
      }
    } else if !pr.cmd.BookTrip? && pr.cmd.trip in s.tripLock {
      var holder := s.tripLock[pr.cmd.trip];
      assert !WaitsFor(s, p, holder);
    }
  }

  lemma AcceptAdvances(s: State, p: ProcId, otp: string)
    requires p in s.procs && ProcOk(s, p) && s.procs[p].cmd.AcceptTrip? && !s.procs[p].pc.Done?
    requires s.procs[p].pc.WantTrip? && s.procs[p].cmd.trip in s.trips ==> s.procs[p].cmd.trip !in s.tripLock
    requires s.procs[p].pc.WantDriver? && DriverWanted(s.procs[p]).Some? ==>
      DriverWanted(s.procs[p]).value !in s.driverLock
    ensures var s' := AcceptStep(s, p, otp); p in s'.procs && StepsLeft(s'.procs[p].pc) < StepsLeft(s.procs[p].pc)
  {
  }

  lemma UpdateAdvances(s: State, p: ProcId)
    requires p in s.procs && ProcOk(s, p) && s.procs[p].cmd.UpdateTrip? && !s.procs[p].pc.Done?
    requires s.procs[p].pc.WantTrip? && s.procs[p].cmd.trip in s.trips ==> s.procs[p].cmd.trip !in s.tripLock
    requires s.procs[p].pc.WantDriver? && DriverWanted(s.procs[p]).Some? ==>
      DriverWanted(s.procs[p]).value !in s.driverLock
    ensures var s' := UpdateStep(s, p); p in s'.procs && StepsLeft(s'.procs[p].pc) < StepsLeft(s.procs[p].pc)
  {
  }

  /** While anything is unfinished, the waits it is held up by lead to somebody who is unfinished and waits
      for nobody: the protocol never deadlocks. */
  lemma {:induction false} SomebodyCanMove(s: State, p: ProcId) returns (chain: seq<ProcId>)
    requires Inv(s) && Unfinished(s, p)
    ensures chain != [] && chain[0] == p && WaitChain(s, chain)
    ensures var q := chain[|chain| - 1]; Unfinished(s, q) && !Waiting(s, q)
    decreases 2 - Depth(s.procs[p])
  {
    chain := [p];
    if Waiting(s, p) {
      var holder :| WaitsFor(s, p, holder);
      WaitsGoDeeper(s, p, holder);
      var rest := SomebodyCanMove(s, holder);
      chain := [p] + rest;
    }
  }

  // ---- Acknowledgements ----------------------------------------------------------------------------

  ghost predicate PositiveAck(pr: Proc, status: Status) {
    && (pr.cmd.AcceptTrip? || pr.cmd.UpdateTrip? || pr.cmd.ConfirmCash?)
    && (pr.pc == Done(Committed(status)) || pr.pc == Done(AlreadyDone(status)))
  }

  /** A positive acknowledgement is true when it is given and stays true: at every later moment of
      the run the stored status is the acknowledged one or one reachable from it, and after an
      acknowledged end it is that end for ever. */
  lemma PositiveAckStaysTrue(s: State, before: seq<Event>, after: seq<Event>, p: ProcId, status: Status)
    requires Initial(s)
    requires p in Run(s, before).procs && PositiveAck(Run(s, before).procs[p], status)
    ensures var t := Run(s, before).procs[p].cmd.trip; var later := Run(s, before + after);
      && t in later.trips
      && Reach(status, later.trips[t].status)
      && (Terminal(status) ==> later.trips[t].status == status)
  {
    hide Inv, Run, ProcOk, RowsOk;
    RunKeepsInv(s, before);
    RunAppend(s, before, after);
    var mid := Run(s, before);
    var t := mid.procs[p].cmd.trip;
    InvProc(mid, p);
    AckIsDurable(mid, p, status);
    RowsEvolve(mid, after, t);
    ReachTransitive(status, mid.trips[t].status, Run(mid, after).trips[t].status);
  }

  lemma AckIsDurable(s: State, p: ProcId, status: Status)
    requires p in s.procs && ProcOk(s, p) && PositiveAck(s.procs[p], status)
    ensures var t := s.procs[p].cmd.trip; t in s.trips && Reach(status, s.trips[t].status)
  {
    hide HoldsOk, WroteOk, SubscribedOk, Refusal;
  }

  /** An acknowledged accept also fixes the assignment for the rest of the run. */
  lemma AcknowledgedAcceptKeepsTheDriver(s: State, before: seq<Event>, after: seq<Event>, p: ProcId)
    requires Initial(s)
    requires p in Run(s, before).procs && Run(s, before).procs[p].cmd.AcceptTrip?
      && Run(s, before).procs[p].pc == Done(Committed(Accepted))
    ensures var pr := Run(s, before).procs[p]; var later := Run(s, before + after);
      pr.cmd.profile.Some? && pr.cmd.trip in later.trips && later.trips[pr.cmd.trip].driver == pr.cmd.profile
  {
    RunKeepsInv(s, before);
    RunAppend(s, before, after);
    var mid := Run(s, before);
    assert ProcOk(mid, p);
    RowsEvolve(mid, after, mid.procs[p].cmd.trip);
  }

  /** What each answer says about this call's own writing. A refusal with a reason code and an
      `already_done` wrote nothing, and a `committed` on a command that moves the status wrote.
      Nothing is claimed for a refusal without a code: see `TripAnswers.RefusalMeansUnchanged`. */
  lemma AnswersTellWhoWrote(s: State, events: seq<Event>, p: ProcId)
    requires Initial(s) && p in Run(s, events).procs && Run(s, events).procs[p].pc.Done?
    ensures var pr := Run(s, events).procs[p]; pr.pc.answer.AlreadyDone? ==> !pr.wrote
    ensures var pr := Run(s, events).procs[p]; pr.pc.answer.Rejected? && pr.pc.answer.reason != Plain ==> !pr.wrote
    ensures var pr := Run(s, events).procs[p]; pr.pc.answer.Committed? && !pr.cmd.ConfirmCash? ==> pr.wrote
    ensures var pr := Run(s, events).procs[p]; pr.pc.answer == Toggled(true) && pr.cmd.GoOnline? ==> pr.wrote
    ensures var pr := Run(s, events).procs[p]; pr.pc.answer.Committed? && pr.cmd.ConfirmCash? ==>
      var r := Run(s, events); pr.cmd.trip in r.trips && r.trips[pr.cmd.trip].cash == CashPaid
  {
    RunKeepsInv(s, events);
    assert ProcOk(Run(s, events), p);
  }

  /** The trip group only ever holds sockets of the rider and of the assigned driver. */
  lemma GroupHoldsParticipantsOnly(s: State, events: seq<Event>, p: ProcId)
    requires Initial(s) && p in Run(s, events).procs && Run(s, events).procs[p].subscribed
    ensures var pr := Run(s, events).procs[p]; var r := Run(s, events);
      && (pr.cmd.AcceptTrip? || pr.cmd.UpdateTrip? || pr.cmd.ConfirmCash?)
      && pr.cmd.trip in r.trips
      && (r.trips[pr.cmd.trip].rider == pr.cmd.user || IsAssigned(r.trips[pr.cmd.trip], pr.cmd.profile))
  {
    RunKeepsInv(s, events);
    assert ProcOk(Run(s, events), p);
  }

  // ---- Exactly once ---------------------------------------------------------------------------------

  /** In every reachable state, a trip has had one payment creation iff it is completed, one refund
      step iff a rider or a driver cancelled it, never both, and one cash settlement iff its cash
      payment is paid. */
  lemma EffectsHappenExactlyOnce(s: State, events: seq<Event>, t: TripId)
    requires Initial(s) && t in Run(s, events).trips
    ensures var row := Run(s, events).trips[t];
      && row.payments == (if row.status == Completed then 1 else 0)
      && row.refunds == (if row.status == Cancelled && row.cancelledBy != BySystem then 1 else 0)
      && row.payments + row.refunds <= 1
      && row.cashSettlements == (if row.cash == CashPaid then 1 else 0)
  {
    RunKeepsInv(s, events);
    assert RowOk(Run(s, events).trips[t], Run(s, events).now);
  }

  ghost function CompletedBy(trips: map<TripId, Trip>, d: DriverId): set<TripId> {
    set t | t in trips && trips[t].driver == Some(d) && trips[t].status == Completed
  }

  lemma NextCounts(s: State, e: Event, d: DriverId)
    requires Inv(s) && d in s.drivers
    ensures d in Next(s, e).drivers
    ensures Next(s, e).drivers[d].totalTrips - |CompletedBy(Next(s, e).trips, d)|
      == s.drivers[d].totalTrips - |CompletedBy(s.trips, d)|
  {
    var t := NextTouchesOneRow(s, e);
    CountsFollowTheRow(s, Next(s, e), t, d);
  }

  lemma CountsFollowTheRow(s: State, s': State, t: TripId, d: DriverId)
    requires SameRowsBut(s, s', t) && SameCountsBut(s, s', t) && d in s.drivers
    ensures d in s'.drivers
    ensures s'.drivers[d].totalTrips - |CompletedBy(s'.trips, d)| == s.drivers[d].totalTrips - |CompletedBy(s.trips, d)|
  {
    var was, now := CompletedBy(s.trips, d), CompletedBy(s'.trips, d);
    var newly := NewlyCompleted(s, s', t, d);
    assert newly ==> t in now && t !in was;
    assert t in was ==> t in now;
    assert !newly && t in now ==> t in was;
    hide Evolves, NewlyCompleted;
    assert forall u :: u in now && u != t ==> u in was;
    assert forall u :: u in was && u != t ==> u in now;
    assert now == if newly then was + {t} else was;
  }

  /** A driver's counter moves in step with that driver's completed trips over every run, whatever
      online and offline toggles of stale sockets run in between. */
  lemma {:induction false} CountersFollowCompletions(s: State, events: seq<Event>, d: DriverId)
    requires Initial(s) && d in s.drivers
    ensures d in Run(s, events).drivers
    ensures Run(s, events).drivers[d].totalTrips
      == s.drivers[d].totalTrips + |CompletedBy(Run(s, events).trips, d)| - |CompletedBy(s.trips, d)|
    decreases |events|
  {
    if events != [] {
      CountersFollowCompletions(s, events[..|events| - 1], d);
      RunKeepsInv(s, events[..|events| - 1]);
      NextCounts(Run(s, events[..|events| - 1]), events[|events| - 1], d);
    }
  }

  // ---- Bookings --------------------------------------------------------------------------------------

  /** Did this call answer with a trip? */
  ghost predicate AnsweredWith(pr: Proc, t: TripId) {
    pr.cmd.BookTrip? && pr.pc.Done? && pr.pc.answer.Booked? && pr.pc.answer.trip == t
  }

  /** All booking calls of one rider with one key, however they race or repeat: at most one trip has
      the key, every call that answers with a trip answers with that one, and at most one call
      answers that the trip is new, so at most one starts dispatch. */
  lemma OneTripPerBookingKey(s: State, events: seq<Event>, p: ProcId, q: ProcId, t: TripId, u: TripId)
    requires Initial(s)
    requires p in Run(s, events).procs && AnsweredWith(Run(s, events).procs[p], t)
    requires q in Run(s, events).procs && AnsweredWith(Run(s, events).procs[q], u)
    requires var a, b := Run(s, events).procs[p].cmd, Run(s, events).procs[q].cmd;
      a.user == b.user && a.key == b.key && a.key.Some?
    ensures t == u
    ensures var r := Run(s, events); var cmd := r.procs[p].cmd;
      forall v :: v in r.trips && Matches(r.trips[v], cmd.user, cmd.key) ==> v == t
    ensures !Run(s, events).procs[p].pc.answer.reused && !Run(s, events).procs[q].pc.answer.reused ==> p == q
  {
    RunKeepsInv(s, events);
    var r := Run(s, events);
    assert ProcOk(r, p) && ProcOk(r, q);
    assert KeysUnique(r.trips);
  }

  // ---- Answers are final ---------------------------------------------------------------------------

  /** A process that has answered never moves again, so an answer is given once. */
  lemma AnswersAreFinal(s: State, e: Event, p: ProcId)
    requires p in s.procs && s.procs[p].pc.Done?
    ensures p in Next(s, e).procs && Next(s, e).procs[p] == s.procs[p]
  {
    hide ProcStep;
  }
}
