/** The trip lifecycle as interleaved transactions.

    A process is one command on one socket (or one worker task). It moves through the steps of its
    transaction: an unlocked authorisation read, the trip row lock, the driver row lock where the
    command needs one, reads of committed rows, staged writes that nobody else sees, and a commit
    that publishes them and frees its locks. A lock is taken only when it is free; otherwise the
    process waits. Any process may take the next step, any process may raise instead of taking
    it, and the clock may move at any point. */
module TripProtocol {
  import opened TripRows

  datatype Verb = MarkReached | StartRide | CompleteRide | CancelRide

  function Target(verb: Verb): Status {
    match verb
    case MarkReached => Reached
    case StartRide => InProgress
    case CompleteRide => Completed
    case CancelRide => Cancelled
  }

  /** `profile` is the driver profile of the user issuing the command, if there is one. */
  datatype Command =
    | AcceptTrip(user: UserId, profile: Option<DriverId>, trip: TripId)
    | UpdateTrip(user: UserId, profile: Option<DriverId>, trip: TripId, verb: Verb, otp: string)
    | ConfirmCash(user: UserId, profile: Option<DriverId>, trip: TripId)
    | TimeOutTrip(trip: TripId)
    | BookTrip(user: UserId, key: Option<string>, paymentMethod: PaymentMethod)
    | GoOnline(driver: DriverId)
    | GoOffline(driver: DriverId)

  /** Where a process stands. The rows it carries are its own copies. */
  datatype Pc =
    | Begin
    | WantTrip
    | HaveTrip(row: Trip)
    | WantDriver(row: Trip, at: Time)
    | HaveDriver(row: Trip, at: Time)
    | Cleared(row: Trip)
    | Staged(row: Trip, at: Time)
    | AfterCommit
    | Pricing
    | AfterInsert(trip: TripId)
    | Loaded(snapshot: Driver)
    | Saving
    | Saved
    | Done(answer: Answer)

  /** `wrote` remembers whether this process committed anything; `subscribed` whether its socket
      is in the trip group. */
  datatype Proc = Proc(cmd: Command, pc: Pc, participation: Participation, wrote: bool, subscribed: bool)

  datatype State = State(
    trips: map<TripId, Trip>,
    drivers: map<DriverId, Driver>,
    tripLock: map<TripId, ProcId>,
    driverLock: map<DriverId, ProcId>,
    procs: map<ProcId, Proc>,
    now: Time)

  /** One scheduler decision. `Step` carries what the environment chooses: a one-time code and the
      id the database would give a new row. `Review` is an operator, an expiry sweep or a lockout changing
      what a driver may do, `Tire` the driver's sessions passing the cap, or no longer doing so. */
  datatype Event =
    | Submit(p: ProcId, cmd: Command)
    | Step(p: ProcId, otp: string, newTrip: TripId)
    | Raise(p: ProcId)
    | Mute(p: ProcId)
    | Review(d: DriverId, standing: Driver)
    | Tire(d: DriverId, overCap: bool)
    | Tick(dt: nat)

  // ---- What a step may touch -----------------------------------------------------------------

  /** How many steps a process may still take. */
  function StepsLeft(pc: Pc): nat {
    match pc
    case Begin => 8
    case WantTrip => 7
    case Pricing => 7
    case Loaded(_) => 7
    case Saving => 6
    case Saved => 1
    case HaveTrip(_) => 6
    case WantDriver(_, _) => 5
    case HaveDriver(_, _) => 4
    case Cleared(_) => 3
    case Staged(_, _) => 2
    case AfterCommit => 1
    case AfterInsert(_) => 1
    case Done(_) => 0
  }

  ghost predicate OnlyProc(s: State, s': State, p: ProcId) {
    && (forall q :: q in s'.procs <==> q in s.procs)
    && (forall q :: q in s.procs && q != p ==> s'.procs[q] == s.procs[q])
  }

  /** A step of `p` moves no other process and no clock, and unless it waits or is already done it
      brings `p` nearer to its answer. */
  ghost predicate MovesOnly(s: State, s': State, p: ProcId) {
    && p in s.procs && p in s'.procs && s'.now == s.now
    && OnlyProc(s, s', p)
    && (s' == s || StepsLeft(s'.procs[p].pc) < StepsLeft(s.procs[p].pc))
  }

  predicate SameRows(s: State, s': State) {
    s'.trips == s.trips && s'.drivers == s.drivers
  }

  // ---- Locks ---------------------------------------------------------------------------------

  /** Does this process still have an open transaction that locked its trip row? */
  predicate HoldsTrip(pr: Proc) {
    && (pr.cmd.AcceptTrip? || pr.cmd.UpdateTrip? || pr.cmd.ConfirmCash? || pr.cmd.TimeOutTrip?)
    && (pr.pc.HaveTrip? || pr.pc.WantDriver? || pr.pc.HaveDriver? || pr.pc.Cleared? || pr.pc.Staged?)
  }

  /** The driver row a command locks: the accepting driver's, or the completed trip's driver's. */
  function DriverWanted(pr: Proc): Option<DriverId> {
    if pr.cmd.AcceptTrip? then pr.cmd.profile
    else if pr.cmd.UpdateTrip? && pr.cmd.verb == CompleteRide
        && (pr.pc.WantDriver? || pr.pc.HaveDriver? || pr.pc.Staged?)
    then pr.pc.row.driver
    else None
  }

  predicate HoldsDriver(pr: Proc) {
    && HoldsTrip(pr)
    && (pr.pc.HaveDriver? || pr.pc.Cleared? || pr.pc.Staged?)
    && DriverWanted(pr).Some?
  }

  function WithPc(s: State, p: ProcId, pc: Pc): (s': State)
    requires p in s.procs
    ensures p in s'.procs && OnlyProc(s, s', p) && s'.now == s.now && SameRows(s, s')
      && s'.procs[p] == s.procs[p].(pc := pc)
  {
    s.(procs := s.procs[p := s.procs[p].(pc := pc)])
  }

  /** Ending a transaction, by commit or rollback, frees every row lock it holds. */
  function Release(s: State, p: ProcId): State {
    s.(tripLock := map t | t in s.tripLock && s.tripLock[t] != p :: s.tripLock[t],
       driverLock := map d | d in s.driverLock && s.driverLock[d] != p :: s.driverLock[d])
  }

  function Finish(s: State, p: ProcId, answer: Answer): (s': State)
    requires p in s.procs
    ensures p in s'.procs && OnlyProc(s, s', p) && s'.now == s.now && SameRows(s, s')
      && s'.procs[p] == s.procs[p].(pc := Done(answer))
  {
    WithPc(Release(s, p), p, Done(answer))
  }

  function LockTrip(s: State, p: ProcId, t: TripId): (s': State)
    requires p in s.procs
    ensures p in s'.procs && OnlyProc(s, s', p) && s'.now == s.now && SameRows(s, s')
    ensures s' == s || s'.procs[p].pc.HaveTrip? || s'.procs[p].pc.Done?
    ensures s'.procs[p].cmd == s.procs[p].cmd
  {
    if t !in s.trips then Finish(s, p, Rejected(Plain))
    else if t in s.tripLock then s
    else WithPc(s.(tripLock := s.tripLock[t := p]), p, HaveTrip(s.trips[t]))
  }

  function LockDriver(s: State, p: ProcId, d: DriverId, row: Trip, at: Time): (s': State)
    requires p in s.procs
    ensures p in s'.procs && OnlyProc(s, s', p) && s'.now == s.now && SameRows(s, s')
    ensures s' == s || s'.procs[p].pc.HaveDriver?
    ensures s'.procs[p].cmd == s.procs[p].cmd
  {
    if d in s.driverLock then s
    else WithPc(s.(driverLock := s.driverLock[d := p]), p, HaveDriver(row, at))
  }

  /** Counting a completion is an increment of the stored value, not of a copy. */
  function Count(drivers: map<DriverId, Driver>, counted: Option<DriverId>): map<DriverId, Driver> {
    if counted.Some? && counted.value in drivers then
      drivers[counted.value := drivers[counted.value].(totalTrips := drivers[counted.value].totalTrips + 1)]
    else drivers
  }

  function Commit(s: State, p: ProcId, t: TripId, row: Trip, counted: Option<DriverId>): (s': State)
    requires p in s.procs
    ensures p in s'.procs && OnlyProc(s, s', p) && s'.now == s.now
      && s'.procs[p] == s.procs[p].(pc := AfterCommit, wrote := true)
    ensures s'.drivers == Count(s.drivers, counted)
  {
    Release(s, p).(
      trips := s.trips[t := row],
      drivers := Count(s.drivers, counted),
      procs := s.procs[p := s.procs[p].(pc := AfterCommit, wrote := true)])
  }

  // ---- Accept --------------------------------------------------------------------------------

  /** Is this driver committed to some trip other than `except`? A plain read of committed rows. */
  predicate OnAnotherTrip(trips: map<TripId, Trip>, d: DriverId, except: TripId) {
    exists t :: t in trips && t != except && trips[t].driver == Some(d) && Active(trips[t].status)
  }

  function AcceptStep(s: State, p: ProcId, otp: string): (s': State)
    requires p in s.procs && s.procs[p].cmd.AcceptTrip?
    ensures MovesOnly(s, s', p) && (!s.procs[p].pc.Staged? ==> SameRows(s, s'))
  {
    var pr := s.procs[p];
    var t := pr.cmd.trip;
    match pr.pc
    case Begin =>
      if (pr.participation != CandidateDriverPart && pr.participation != AssignedDriverPart) || pr.cmd.profile.None?
      then Finish(s, p, Rejected(NotADriver))
      else WithPc(s, p, WantTrip)
    case WantTrip => LockTrip(s, p, t)
    case HaveTrip(row) =>
      if row.driver.Some? then Finish(s, p, Rejected(TripTaken))
      else if row.status != NoStatus && row.status != Requested then Finish(s, p, Rejected(TripTaken))
      else if pr.cmd.profile.None? || pr.cmd.profile.value !in s.drivers then Finish(s, p, Rejected(Plain))
      else WithPc(s, p, WantDriver(row, s.now))
    case WantDriver(row, at) =>
      if pr.cmd.profile.None? then s else LockDriver(s, p, pr.cmd.profile.value, row, at)
    case HaveDriver(row, _) =>
      if pr.cmd.profile.None? || pr.cmd.profile.value !in s.drivers then s
      else if !Eligible(s.drivers[pr.cmd.profile.value], s.now) then Finish(s, p, Rejected(Plain))
      else if OnAnotherTrip(s.trips, pr.cmd.profile.value, t) then Finish(s, p, Rejected(DriverAlreadyOnTrip))
      else WithPc(s, p, Cleared(row))
    case Cleared(row) =>
      if pr.cmd.profile.None? then s
      else WithPc(s, p, Staged(AcceptRow(row, pr.cmd.profile.value, otp, s.now), s.now))
    case Staged(row, _) => Commit(s, p, t, row, None)
    case AfterCommit =>
      s.(procs := s.procs[p := pr.(pc := Done(Committed(Accepted)), participation := AssignedDriverPart,
          subscribed := true)])
    case _ => s
  }

  // ---- Update: reached, start, complete, cancel ----------------------------------------------

  predicate IsAssigned(row: Trip, profile: Option<DriverId>) {
    profile.Some? && row.driver == profile
  }

  /** The unlocked authorisation check: None when the command may go on. */
  function Refusal(s: State, cmd: Command): Option<Reason>
    requires cmd.UpdateTrip? || cmd.ConfirmCash?
  {
    var isAssigned := cmd.trip in s.trips && IsAssigned(s.trips[cmd.trip], cmd.profile);
    var rider := cmd.trip in s.trips && s.trips[cmd.trip].rider == cmd.user;
    if cmd.UpdateTrip? && cmd.verb == CancelRide then
      (if rider || isAssigned then None else Some(NotAuthorisedToCancel))
    else if !isAssigned then Some(NotAssignedDriver)
    else if cmd.UpdateTrip? && cmd.verb == StartRide && cmd.otp == "" then Some(OtpRequired)
    else None
  }

  function CancellerOf(row: Trip, user: UserId): Canceller {
    if row.rider == user then ByRider else ByDriver
  }

  function UpdateStep(s: State, p: ProcId): (s': State)
    requires p in s.procs && s.procs[p].cmd.UpdateTrip?
    ensures MovesOnly(s, s', p) && (!s.procs[p].pc.Staged? ==> SameRows(s, s'))
  {
    var pr := s.procs[p];
    var t := pr.cmd.trip;
    var target := Target(pr.cmd.verb);
    match pr.pc
    case Begin =>
      var refusal := Refusal(s, pr.cmd);
      if refusal.Some? then Finish(s, p, Rejected(refusal.value)) else WithPc(s, p, WantTrip)
    case WantTrip => LockTrip(s, p, t)
    case HaveTrip(row) =>
      (match Decide(row, target, pr.cmd.otp)
       case Refuse(answer) => Finish(s, p, answer)
       case Proceed =>
         var staged := AdvanceRow(row, target, CancellerOf(row, pr.cmd.user), s.now);
         if target == Completed && row.driver.Some? then WithPc(s, p, WantDriver(staged, s.now))
         else WithPc(s, p, Staged(staged, s.now)))
    case WantDriver(row, at) =>
      if row.driver.None? then s else LockDriver(s, p, row.driver.value, row, at)
    case HaveDriver(row, at) => WithPc(s, p, Staged(row, at))
    case Staged(row, _) => Commit(s, p, t, row, if target == Completed then row.driver else None)
    case AfterCommit => WithPc(s, p, Done(Committed(target)))
    case _ => s
  }

  // ---- Cash confirmation and the accept timeout ------------------------------------------------

  function CashStep(s: State, p: ProcId): (s': State)
    requires p in s.procs && s.procs[p].cmd.ConfirmCash?
    ensures MovesOnly(s, s', p) && (!s.procs[p].pc.Staged? ==> SameRows(s, s'))
  {
    var pr := s.procs[p];
    var t := pr.cmd.trip;
    match pr.pc
    case Begin =>
      var refusal := Refusal(s, pr.cmd);
      if refusal.Some? then Finish(s, p, Rejected(refusal.value)) else WithPc(s, p, WantTrip)
    case WantTrip => LockTrip(s, p, t)
    case HaveTrip(row) =>
      (match DecideCash(row)
       case Refuse(Committed(_)) => WithPc(Release(s, p), p, AfterCommit)
       case Refuse(answer) => Finish(s, p, answer)
       case Proceed => WithPc(s, p, Staged(CashRow(row), s.now)))
    case Staged(row, _) => Commit(s, p, t, row, None)
    // The acknowledgement of a command that moves no status reads the stored one.
    case AfterCommit => if t in s.trips then WithPc(s, p, Done(Committed(s.trips[t].status))) else s
    case _ => s
  }

  function TimeOutStep(s: State, p: ProcId): (s': State)
    requires p in s.procs && s.procs[p].cmd.TimeOutTrip?
    ensures MovesOnly(s, s', p) && (!s.procs[p].pc.Staged? ==> SameRows(s, s'))
  {
    var pr := s.procs[p];
    var t := pr.cmd.trip;
    match pr.pc
    case Begin => WithPc(s, p, WantTrip)
    case WantTrip => LockTrip(s, p, t)
    case HaveTrip(row) =>
      if row.driver.Some? then Finish(s, p, StoodDown)
      else if Terminal(row.status) || Active(row.status) then Finish(s, p, StoodDown)
      else WithPc(s, p, Staged(TimeoutRow(row, s.now), s.now))
    case Staged(row, _) => Commit(s, p, t, row, None)
    case AfterCommit => WithPc(s, p, Done(Committed(Cancelled)))
    case _ => s
  }

  // ---- Booking ---------------------------------------------------------------------------------

  predicate Matches(row: Trip, user: UserId, key: Option<string>) {
    row.rider == user && key.Some? && row.requestKey == key
  }

  predicate HasBooking(trips: map<TripId, Trip>, user: UserId, key: Option<string>) {
    exists t :: t in trips && Matches(trips[t], user, key)
  }

  ghost function FindBooking(trips: map<TripId, Trip>, user: UserId, key: Option<string>): (t: TripId)
    requires HasBooking(trips, user, key)
    ensures t in trips && Matches(trips[t], user, key)
  {
    var t :| t in trips && Matches(trips[t], user, key);
    t
  }

  function NewTrip(user: UserId, key: Option<string>, creator: ProcId, paymentMethod: PaymentMethod): Trip {
    Trip(user, key, creator, paymentMethod, None, Requested, None, None, None, None, None, None,
         Nobody, false, NoCash, 0, 0, 0)
  }

  /** The insert is where the unique index on (rider, request key) decides the race: the loser
      re-reads and returns the winner's trip. */
  ghost function BookStep(s: State, p: ProcId, newTrip: TripId): (s': State)
    requires p in s.procs && s.procs[p].cmd.BookTrip?
    ensures MovesOnly(s, s', p) && (!s.procs[p].pc.Pricing? ==> SameRows(s, s'))
  {
    var pr := s.procs[p];
    var user, key := pr.cmd.user, pr.cmd.key;
    match pr.pc
    case Begin =>
      if HasBooking(s.trips, user, key) then WithPc(s, p, Done(Booked(FindBooking(s.trips, user, key), true)))
      else WithPc(s, p, Pricing)
    case Pricing =>
      if HasBooking(s.trips, user, key) then WithPc(s, p, Done(Booked(FindBooking(s.trips, user, key), true)))
      else if newTrip in s.trips then s
      else s.(trips := s.trips[newTrip := NewTrip(user, key, p, pr.cmd.paymentMethod)],
              procs := s.procs[p := pr.(pc := AfterInsert(newTrip), wrote := true)])
    case AfterInsert(t) => WithPc(s, p, Done(Booked(t, false)))
    case _ => s
  }

  // ---- Online and offline ------------------------------------------------------------------------

  /** The socket loads the driver's row when it connects, and is refused there unless the copy may operate.
      Going online looks at the copy for a lockout and at the sessions for the cap, and then writes the
      status column, only that one and whatever it holds by now; going offline leaves a blocked one. The
      write is committed at once, and the session is opened or closed after it. */
  function ToggleStep(s: State, p: ProcId): (s': State)
    requires p in s.procs && (s.procs[p].cmd.GoOnline? || s.procs[p].cmd.GoOffline?)
    ensures MovesOnly(s, s', p) && (!s.procs[p].pc.Saving? ==> SameRows(s, s'))
  {
    var pr := s.procs[p];
    var d := pr.cmd.driver;
    match pr.pc
    case Begin =>
      if d !in s.drivers then Finish(s, p, Toggled(false))
      else if pr.cmd.GoOffline? then WithPc(s, p, Saving)
      else if s.drivers[d].mayOperate then WithPc(s, p, Loaded(s.drivers[d]))
      else Finish(s, p, Toggled(false))
    case Loaded(snapshot) =>
      if snapshot.lockedUntil > s.now || (d in s.drivers && s.drivers[d].overCap) then Finish(s, p, Toggled(false))
      else WithPc(s, p, Saving)
    case Saving =>
      if d !in s.drivers || d in s.driverLock then s
      else if pr.cmd.GoOffline? && s.drivers[d].status == Blocked then WithPc(s, p, Saved)
      else
        s.(drivers := s.drivers[d := s.drivers[d].(status := if pr.cmd.GoOnline? then Online else Off)],
           procs := s.procs[p := pr.(pc := Saved, wrote := true)])
    case Saved => WithPc(s, p, Done(Toggled(true)))
    case _ => s
  }

  // ---- The scheduler -----------------------------------------------------------------------------

  ghost function ProcStep(s: State, p: ProcId, otp: string, newTrip: TripId): (s': State)
    requires p in s.procs
    ensures MovesOnly(s, s', p)
    ensures !s.procs[p].pc.Staged? && !s.procs[p].pc.Pricing? && !s.procs[p].pc.Saving? ==> SameRows(s, s')
  {
    match s.procs[p].cmd
    case AcceptTrip(_, _, _) => AcceptStep(s, p, otp)
    case UpdateTrip(_, _, _, _, _) => UpdateStep(s, p)
    case ConfirmCash(_, _, _) => CashStep(s, p)
    case TimeOutTrip(_) => TimeOutStep(s, p)
    case BookTrip(_, _, _) => BookStep(s, p, newTrip)
    case GoOnline(_) => ToggleStep(s, p)
    case GoOffline(_) => ToggleStep(s, p)
  }

  /** An exception. Inside a transaction it rolls back; after the commit it only spoils the answer. */
  function RaiseStep(s: State, p: ProcId): State
    requires p in s.procs
  {
    var pr := s.procs[p];
    if pr.pc.Done? then s
    else if pr.pc.Begin? then Finish(s, p, NoAnswer)
    else if pr.cmd.BookTrip? then Finish(s, p, NoTrip)
    else if pr.cmd.GoOnline? || pr.cmd.GoOffline? then Finish(s, p, Toggled(false))
    else Finish(s, p, Rejected(Plain))
  }

  /** The reply of a committed command is lost while it is being sent. */
  function MuteStep(s: State, p: ProcId): State
    requires p in s.procs
  {
    if s.procs[p].pc.AfterCommit? then WithPc(s, p, Done(NoAnswer)) else s
  }

  /** A socket connects and sends its command: participation and group membership are decided on
      connecting, from the committed row. */
  function Connect(s: State, cmd: Command): Proc {
    if cmd.AcceptTrip? || cmd.UpdateTrip? || cmd.ConfirmCash? then
      var part := if cmd.trip in s.trips then Resolve(s.trips[cmd.trip], cmd.user, cmd.profile, s.drivers) else NoPart;
      var pc := if part == NoPart then Done(NoAnswer) else Begin;
      Proc(cmd, pc, part, false, part == RiderPart || part == AssignedDriverPart)
    else
      Proc(cmd, Begin, NoPart, false, false)
  }

  /** Anything about a driver may change, but for the completed-trip counter, while no transaction
      holds the driver row. */
  function ReviewStep(s: State, d: DriverId, standing: Driver): State {
    if d !in s.drivers || d in s.driverLock then s
    else
      var was := s.drivers[d];
      s.(drivers := s.drivers[d := standing.(totalTrips := was.totalTrips, overCap := was.overCap)])
  }

  /** The sessions may pass the cap at any time. */
  function TireStep(s: State, d: DriverId, overCap: bool): State {
    if d !in s.drivers then s else s.(drivers := s.drivers[d := s.drivers[d].(overCap := overCap)])
  }

  ghost function Next(s: State, e: Event): State {
    match e
    case Submit(p, cmd) => if p in s.procs then s else s.(procs := s.procs[p := Connect(s, cmd)])
    case Step(p, otp, newTrip) => if p in s.procs then ProcStep(s, p, otp, newTrip) else s
    case Raise(p) => if p in s.procs then RaiseStep(s, p) else s
    case Mute(p) => if p in s.procs then MuteStep(s, p) else s
    case Review(d, standing) => ReviewStep(s, d, standing)
    case Tire(d, overCap) => TireStep(s, d, overCap)
    case Tick(n) => s.(now := s.now + n)
  }

  ghost function Run(s: State, events: seq<Event>): State
    decreases |events|
  {
    if events == [] then s else Next(Run(s, events[..|events| - 1]), events[|events| - 1])
  }

  /** A database at rest: lawful rows, no open transaction. */
  ghost predicate Initial(s: State) {
    && s.tripLock == map[] && s.driverLock == map[] && s.procs == map[]
    && (forall t :: t in s.trips ==> RowOk(s.trips[t], s.now))
    && (forall t :: t in s.trips && s.trips[t].driver.Some? ==> s.trips[t].driver.value in s.drivers)
    && DriversApart(s.trips)
    && KeysUnique(s.trips)
  }

  // ---- What is to be kept --------------------------------------------------------------------------

  /** Trip `a` was over before trip `b` was accepted. */
  predicate Before(a: Trip, b: Trip) {
    && EndOf(a).Some? && b.acceptedAt.Some?
    && EndOf(a).value <= b.acceptedAt.value
  }

  /** Of two trips of one driver, one was over before the other was accepted. */
  ghost predicate DriversApart(trips: map<TripId, Trip>) {
    forall t, u :: t in trips && u in trips && t != u && trips[t].driver.Some? && trips[t].driver == trips[u].driver
      ==> Before(trips[t], trips[u]) || Before(trips[u], trips[t])
  }

  /** The unique index on (rider, request key), as a property of the table. */
  ghost predicate KeysUnique(trips: map<TripId, Trip>) {
    forall t, u :: t in trips && u in trips && trips[t].requestKey.Some?
        && trips[t].requestKey == trips[u].requestKey && trips[t].rider == trips[u].rider
      ==> t == u
  }
}
