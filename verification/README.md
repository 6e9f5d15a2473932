# SaaradhiGo backend: a verified model of its hard logic

A Dafny model of the parts of the ride-hailing backend where a mistake costs a ride or money, with
proofs of what those parts promise. Check everything with `dafny verify dfyconfig.toml`.

- **Trip lifecycle** (`TripRows`, `TripProtocol`, `TripInvariant`, `TripPreservation`, `TripTheorems`,
  `TripDuties`, `TripAnswers`, `TripRecord`). Accept, reached/start/complete/cancel, cash confirmation, the accept
  timeout, booking and the online/offline toggles run as interleaved transactions over shared rows: a
  process takes one database step at a time (unlocked authorisation read, trip row lock, driver row lock,
  reads of committed rows, staged write, commit), waits for locks, and may raise before or after its
  commit. A driver's standing may change under it at any time the driver row is not locked, and whether
  the driver's sessions pass the cap at any time at all. The theorems quantify over every run of the scheduler;
  `TripDuties` says of each command what it writes, column by column, which answer it gives when, and that it
  gets its way when it is entitled to.
  `TripRecord` is the same row as the object the consumer updates in place, method by method.
- **Location pump** (`LocationPump`). The depth-one coalescing queue and its task, as a state machine
  and as the consumer's own fields.
- **Geo index** (`GeoSearch`, `GeoIndex`, `GeoStore`, `GeoMap`, `GeoSweep`). Per-vehicle-type sorted
  sets, heartbeats and active-trip keys, the search that joins, filters, re-sorts and truncates, the
  whole of it against a simple map of drivers, and a sweep that pings come between.
- **Money** (`Decimals`, `DecimalText`, `Strings`, `Money`, `MoneyRounding`, `GatewayFloat`,
  `MoneyMigration`). Decimal arithmetic in a context of 28 significant digits, conversions between major
  and minor units, printing and parsing, the binary64 number of a major-unit gateway (section 4.3.1 of
  IEEE 754-2008), and the batched migration with its verifying pass. The currency table is a parameter.
- **Wallet payments** (`WalletPayments`). Concurrent payments under a wallet row lock and a unique
  idempotency key.
- **Payouts and refunds** (`Payouts`, `Refunds`). Calls to a provider that may process a request and
  lose the reply, against the provider's ledger.
- **Migration gate** (`MigrationGate`). Polling with exponential backoff against an arbitrary clock.
- **Masking** (`Masking`, `MaskingAddress`, `MaskingShown`, `Coordinates`, `MaskPayload`, `PayloadShown`). The
  string maskers, the rounding of coordinates, and the tree walk that picks them by field name. What each masker
  shows of a text is in `MaskingShown`, and what is shown along any path of a payload in `PayloadShown`. How the
  platform prints a float is a parameter, with what is used of it stated as `Coordinates.PrintsNearest` and
  `Coordinates.PrintsShort`.

Clocks, random codes, database-assigned ids, network fates and distances are parameters or events chosen
freely by the environment, so every statement holds for all of them.

## Where the code differs from what its documentation says

- `to_gateway_major` promises exact digits below 2^53 minor units. For a two-digit currency the bound is
  100 * 2^46: one minor unit above it is no longer recovered, and two above it share a float
  (`GatewayFloat.TwoAmountsShareAFloat`, `GatewayFloat.ExactBound`).
- `to_minor` is called the only rounding point. An amount of more than 28 significant digits is rounded
  twice, and the result need not be the nearest (`Money.TwentyNineDigitsRoundTwice`): it is so exactly
  when the first rounding does not cross a half (`MoneyRounding.NearestExactly`). It still never turns a
  larger amount into fewer minor units.
- A retried accept by the driver who won is answered as taken, not as already done
  (`TripAnswers.RetriedAcceptIsTaken`).
- A rejection without a reason code may follow a commit, because after-commit work that raises is
  answered like a rollback; with a reason code it never does (`TripAnswers.RefusalMeansUnchanged`).
- Going offline is written so as not to lift a suspension, but a call to go online lifts it if its socket
  had loaded the driver before, also when the call is then answered as a failure
  (`TripAnswers.SuspensionSurvives`, `TripAnswers.OnlyStaleCallsLift`, `TripAnswers.StaleCallLifts`).
- The `trip_already_completed` reason is never given: cancelling a completed trip is an
  `invalid_transition` before that branch is reached (`TripRows.SecondCheckIsDead`,
  `TripAnswers.NeverAlreadyCompleted`).
- The maskers are said to be idempotent. `mask_phone`, `mask_identifier`, `mask_name`, `mask_contact` and
  `mask_address` are so exactly on the strings given by `Masking` and `MaskingAddress`; and `mask_name`
  raises on a string of white space.
- Rounding a coordinate is guarded only while the text is read: for a strict viewer an infinity, a
  signaling NaN or a number of at least 10^26 less half a hundredth, `"1E+30"` say, raises out of the
  whole payload (`MaskPayload.MaskReturns`, `MaskPayload.ThirtyZerosRaise`).
- A payout call answered None is described as a definite rejection. It is one unless the provider
  processed the request and its answer was below 500 but unreadable (`Payouts.NoneIsANo`,
  `Payouts.MuffledAnswerHidesAPayout`).
- A refund by order id is idempotent only while the order keeps resolving to the same payment; a late
  capture of an earlier payment makes a second refund (`Refunds.OneRefundPerOrder`,
  `Refunds.LateCaptureRefundsTwice`).
- A wallet payment whose key is already in the ledger is answered as a success without comparing the user
  or the amount (`WalletPayments.SuccessIsOwnExactly`, `WalletPayments.AnothersKeyIsASuccess`).
- A ping of a busy driver leaves the entry of an earlier vehicle type in place
  (`GeoIndex.BusyPingHides`, `GeoMap.BusyUnderAnotherType`), and its heartbeat keeps that entry live.
- A sweep removes the members it found lapsed, whether or not their drivers have pinged since
  (`GeoSweep.LosesLiveExactly`, `GeoSweep.PingInBetweenIsLost`).

## Model

| member | source | states |
|---|---|---|
| `TripRows.ReachIsClosure` | servers/consumers.py:2366-2374 | reachability between statuses is exactly the closure of the allowed transitions |
| `TripRows.SecondCheckIsDead` | servers/consumers.py:2378-2402 | the second check for a finished trip never answers: a cancel of a completed trip is an invalid transition before it |
| `TripRows.AdvanceKeepsRow` | servers/consumers.py:2403-2545 | an allowed transition evolves the row legally: one stamp, and payment or refund counted exactly with its status |
| `TripRows.AcceptKeepsRow` | servers/consumers.py:2149-2176 | accepting an open row assigns the driver once and keeps the row lawful |
| `TripRows.TimeoutKeepsRow` | servers/ride/tasks.py:237-264 | the timeout cancels an open, unassigned row and touches nothing else |
| `TripRows.CashKeepsRow` | servers/consumers.py:2274-2333 | confirming cash settles a completed trip without moving its status |
| `TripProtocol.AcceptStep` | servers/consumers.py:2027-2183 | each step of an accept moves no other process, and writes rows only at its commit |
| `TripProtocol.UpdateStep` | servers/consumers.py:2360-2612 | each step of a status update moves no other process, and writes rows only at its commit |
| `TripProtocol.CashStep` | servers/consumers.py:2274-2338 | each step of a cash confirmation moves no other process, and writes rows only at its commit |
| `TripProtocol.TimeOutStep` | servers/ride/tasks.py:224-264 | each step of the timeout moves no other process, and writes rows only at its commit |
| `TripProtocol.BookStep` | servers/consumers.py:1017-1261 | each step of a booking moves no other process, and writes rows only at its insert |
| `TripProtocol.ToggleStep` | servers/consumers.py:479-537 | a toggle writes only at its update, which is committed before its answer, and moves no other process |
| `TripPreservation.NextKeepsInv` | servers/consumers.py:2027-2176 | any step, exception, lost reply, new command or clock tick keeps the whole invariant: locks, rows, exclusivity, unique keys, staged copies |
| `TripPreservation.RunKeepsInv` | servers/consumers.py:2027-2612 | every state of every run from a database at rest has the invariant |
| `TripTheorems.DriverExclusivity` | servers/consumers.py:2102-2147 | in every reachable state no driver is on two trips that are accepted, reached or in progress |
| `TripTheorems.IntervalsNeverOverlap` | qa/load_harness.py:502-520 | over every run, two trips of one driver have disjoint [accepted, ended] intervals |
| `TripTheorems.NoWaitCycle` | servers/consumers.py:2120-2131 | no chain of lock waits closes on itself in any reachable state |
| `TripTheorems.SomebodyCanMove` | servers/consumers.py:2027-2183 | while a command is unfinished, a chain of the waits that hold it up leads to a process that waits for nobody |
| `TripTheorems.StepAdvances` | servers/consumers.py:2027-2612 | a process that waits for nobody gets strictly nearer to its answer when scheduled |
| `TripTheorems.EveryTransitionIsAuthorised` | servers/consumers.py:1986-2147 | in every run, whatever changes a trip's status is a step of a command entitled to, on the rows as it commits: a free driver in good standing and not locked out accepts, the assigned driver reaches, starts (with the trip's code) and completes, the rider, the assigned driver or the timeout cancels |
| `TripTheorems.NextTouchesOneRow` | servers/consumers.py:2439-2531 | one step changes at most one trip row, legally, and counts a completion exactly when it completes a trip of that driver |
| `TripTheorems.RowsEvolve` | servers/consumers.py:2366-2401 | over any run a stored row only evolves legally and is never lost |
| `TripTheorems.PositiveAckStaysTrue` | servers/consumers.py:1798-1846 | after a committed or already-done ack every later durable status is the acked one or reachable from it, and completed or cancelled is final |
| `TripTheorems.AcknowledgedAcceptKeepsTheDriver` | servers/consumers.py:2149-2176 | an acked accept keeps its driver on the trip for the rest of the run |
| `TripTheorems.AnswersTellWhoWrote` | servers/consumers.py:2378-2391 | committed, or a success of going online, means this call wrote; already done and reasoned refusals mean it did not |
| `TripTheorems.AnswersAreFinal` | servers/consumers.py:1543-1578 | an answer is given once and never changes |
| `TripTheorems.EffectsHappenExactlyOnce` | servers/consumers.py:2439-2531 | payment creation happened once iff the trip is completed, the refund step once iff this path cancelled it, never both |
| `TripTheorems.CountersFollowCompletions` | servers/consumers.py:2444-2468 | each driver's total_trips is its starting value plus that driver's completed trips, whatever toggles run |
| `TripTheorems.GroupHoldsParticipantsOnly` | servers/consumers.py:1950-1984 | only the rider and the assigned driver are ever in the trip group |
| `TripTheorems.OneTripPerBookingKey` | servers/consumers.py:1247-1263 | racing or repeated bookings with one key leave one trip, agree on it, and at most one says it is new |
| `TripDuties.EveryWriteIsSpelled` | servers/consumers.py:2149-2545 | in every run, whatever changes a stored trip is a step of a command on that trip, and the new row is spelled out: which columns an accept, each verb, a cash confirmation and the timeout write, with what, and that all others stay |
| `TripDuties.EveryBookingIsSpelled` | servers/consumers.py:1104-1261 | in every run, a new trip has its booking's rider, key and payment method, is requested, and has nothing else |
| `TripDuties.EveryDriverWriteIsSpelled` | servers/consumers.py:479-537 | in every run, a step that changes a driver's row is that driver's toggle writing the status, or the completion of that driver's trip counting one more |
| `TripDuties.EveryAnswerIsDeserved` | servers/consumers.py:1986-2612 | in every run, a step of any command ends it with an answer iff the stored rows, as the step finds them, deserve that answer: a wrong code is a refusal for a start only, an invalid transition only where the stored status does not allow the target, and so on through every reason of every command |
| `TripDuties.DoesItsDuty` | servers/consumers.py:2027-2612 | submitted while nobody holds the locks it needs, every entitled accept, reach, start, complete, cancel, cash confirmation and timeout commits, answers with its status, and leaves exactly the row it is to write |
| `TripDuties.BooksAlone` | servers/consumers.py:1017-1261 | a booking alone adds exactly the trip asked for and answers with it, or answers with the one its key already has and adds nothing |
| `TripDuties.TogglesAlone` | servers/consumers.py:479-537 | going online alone succeeds for a driver fit to; going offline leaves a blocked driver blocked and takes any other off |
| `TripDuties.EverySocketIsJudged` | servers/consumers.py:1944-1984 | a socket is let in iff the stored rows make its user the rider, the driver, or a driver who may still take the trip, and only the first two are in its group |
| `TripDuties.EveryAcceptJoins` | servers/consumers.py:1639-1647 | in every run, an accept acknowledged as committed has joined the trip group as its driver |
| `TripDuties.EveryExceptionIsAnswered` | servers/consumers.py:2613-2617 | an exception writes nothing and ends the command with a failure |
| `TripDuties.EveryExceptionFrees` | servers/consumers.py:2613-2617 | an exception frees the locks of its command and no other |
| `TripAnswers.LateAcceptNeverWins` | servers/consumers.py:2031-2037 | in every run, an accept submitted on a trip that has a driver, the winner's own retry included, never writes, is never acknowledged as a success, and leaves the assignment |
| `TripAnswers.RefusalMeansUnchanged` | servers/consumers.py:2615-2617 | for accepts, updates and cash confirmations alike: a refusal means nothing was written, in every run, iff it carries a reason code |
| `TripAnswers.SuspensionSurvives` | servers/consumers.py:500-537 | from any moment of any run, nobody judging the driver anew: a suspension survives iff no call to go online writes, whatever it answers |
| `TripAnswers.OnlyStaleCallsLift` | servers/consumers.py:160-170 | while the driver may not operate, only a call whose socket loaded its copy before can write the driver online |
| `TripAnswers.SuspensionIsSafe` | servers/consumers.py:165-205 | with no such call underway, a suspension that takes the right to operate away is kept in every run |
| `TripAnswers.StaleCallLifts` | servers/consumers.py:500-520 | a run from a database at rest in which a call answered as a failure lifts a suspension |
| `TripAnswers.NeverAlreadyCompleted` | servers/consumers.py:2392-2402 | in no run is a call refused because the trip is already completed |
| `TripRecord.TripRecord.Accept` | servers/consumers.py:2031-2176 | takes the object iff it has no driver and is requested or without a status, and then writes driver, status, code and stamp and no other field; also the row function of the protocol |
| `TripRecord.TripRecord.Advance` | servers/consumers.py:2366-2545 | the answer by status, target and code alone: an invalid transition or already done iff the status does not lead to the target, a wrong code only when starting; refused, the object is untouched, and otherwise exactly the one transition is made |
| `TripRecord.TripRecord.Write` | servers/consumers.py:2406-2545 | the whole object after a transition, field by field |
| `TripRecord.TripRecord.ConfirmCash` | servers/consumers.py:2274-2333 | succeeds iff the trip is completed and its cash is pending or paid; settles pending cash exactly once and touches no other field |
| `TripRecord.TripRecord.TimeOut` | servers/ride/tasks.py:237-264 | cancels the object iff it is open and unassigned, and otherwise leaves it |
| `LocationPump.PumpIsSafe` | servers/consumers.py:102-143 | after any events at most one frame waits and it is the newest, offered = taken + queued + dropped, and sent frames are in order, none twice |
| `LocationPump.NewestArrives` | servers/consumers.py:112-122 | an idle pump with an empty queue has sent the newest frame offered |
| `LocationPump.PumpDelivers` | servers/consumers.py:102-143 | a free pump offered a frame takes it, and when the send returns has delivered it and nothing waits |
| `LocationPump.StopsForGood` | servers/consumers.py:84-143 | a pump that was stopped or failed to send never takes or sends again, whatever happens |
| `LocationPump.Stops` | servers/consumers.py:84-143 | a stop, and a send that fails, stop it |
| `LocationPump.HeldUp` | servers/consumers.py:124-143 | a pump stuck in a send takes nothing more, counts what it supersedes, and keeps the newest |
| `LocationPump.NextKeepsInv` | servers/consumers.py:102-143 | every event keeps the queue invariant |
| `LocationPump.LocationBroadcast.StartLocationPump` | servers/consumers.py:78-82 | an empty queue and a running pump; a second start changes nothing |
| `LocationPump.LocationBroadcast.QueueLocationFrame` | servers/consumers.py:102-122 | afterwards the frame offered is the only one that waits, and the one it replaced is counted as dropped; before the start nothing happens |
| `LocationPump.LocationBroadcast.PumpTake` | servers/consumers.py:130-131 | the pump takes the newest frame offered, and the queue is empty |
| `LocationPump.LocationBroadcast.PumpSent` | servers/consumers.py:132-143 | a send that returns is recorded as all that was taken, one that fails ends the pump |
| `LocationPump.LocationBroadcast.StopLocationPump` | servers/consumers.py:84-100 | neither running nor sending, the queue and the counts as they were; idempotent |
| `GeoIndex.MemberRoundTrip` | servers/redis_client.py:646 | a member string gives its driver id back |
| `GeoIndex.IdIs` | servers/redis_client.py:770 | the id of any member is what stands between its first two colons, after its only one, or all of it |
| `GeoIndex.PrefixNamesOneDriver` | servers/redis_client.py:822-830 | the removal prefix of an id matches that driver's members and no other's |
| `GeoIndex.RemovesOneDriver` | servers/redis_client.py:817-830 | removal deletes all and only that driver's members, in every index |
| `GeoIndex.SweepsTheLapsed` | servers/redis_client.py:347-357 | a sweep deletes exactly the members whose driver has no heartbeat |
| `GeoIndex.SweepKeepsNearby` | servers/redis_client.py:334-361 | with heartbeats fixed and nothing truncated, a sweep does not change what a search returns |
| `GeoIndex.BusyPingHides` | servers/redis_client.py:661-683 | a busy ping takes the driver out of every index exactly when no other vehicle type's entry is left |
| `GeoIndex.GeoAddIsExact` | servers/redis_client.py:687 | adding a member sets its position and changes no other |
| `GeoIndex.ZRemIsExact` | servers/redis_client.py:673 | removing members from a key changes that key's set only |
| `GeoIndex.OfferedMembers` | servers/redis_client.py:743-768 | what the lists of a search hold is exactly the live members within the radius of any index |
| `GeoMap.IndexIsTheMap` | servers/redis_client.py:334-361 | after any run of pings, removals, sweeps and lapses the index holds exactly the entries of a simple map of drivers |
| `GeoMap.NearestOfTheMap` | servers/redis_client.py:709-788 | a search over all indexes that no ghost distorts returns the `count` nearest of that map's live drivers within the radius |
| `GeoMap.BusyUnderAnotherType` | servers/redis_client.py:661-683 | a driver who pings free under one vehicle type and then busy under another stays in the first index, live |
| `GeoSweep.EvictsTheCondemned` | servers/redis_client.py:348-357 | whatever comes between its reads and its removal, a sweep takes out exactly the members it read whose driver, as it looked, had last done something other than ping |
| `GeoSweep.LosesLiveExactly` | servers/redis_client.py:348-357 | a live driver's entry is lost exactly then, and only to a ping between the look and the removal |
| `GeoSweep.UninterruptedVisit` | servers/redis_client.py:348-357 | a visit that nothing comes between finds the members a sweep in one step would |
| `GeoSweep.PingInBetweenIsLost` | servers/redis_client.py:348-357 | commands after which a driver who has just pinged is taken out |
| `GeoSearch.NearestIsTopK` | servers/redis_client.py:743-788 | when no truncated list holds a lapsed heartbeat the result is the `count` nearest of all live members |
| `GeoSearch.TopKExactly` | servers/redis_client.py:743-788 | it is so exactly when every live member that a list cut off has `count` live members, among those the lists kept, at least as near |
| `GeoSearch.NearestIsLiveAndSorted` | servers/redis_client.py:759-788 | always sorted by distance, at most `count` long, and made of live members |
| `GeoSearch.GhostHidesADriver` | servers/redis_client.py:746-757 | a lapsed entry in a truncated list can hide a live driver |
| `GeoStore.SetTripReadsBack` | servers/redis_client.py:384-425 | the trip id stored for a driver is the one read back |
| `GeoStore.SetTripKeepsBusy` | servers/redis_client.py:384-433 | a driver marked as on a trip counts as busy until the key is cleared, and no other driver's answer changes |
| `GeoStore.OnlyFreeIsFree` | servers/redis_client.py:417-433 | a driver counts as free iff the key is missing, empty, or a zero with white space or a sign about it; any other text keeps the driver out of the index |
| `GeoStore.Store.AddDriverLocation` | servers/redis_client.py:608-692 | a free ping puts the member at its position, a busy or unknown one takes it out, refused pings change nothing, and a ping without a vehicle type is refused as such |
| `GeoStore.Store.SweepStaleDrivers` | servers/redis_client.py:334-361 | the scan loop purges every index of lapsed members and returns how many members the indexes have lost |
| `GeoStore.Store.RemoveDriver` | servers/redis_client.py:801-845 | the scan loops purge every index and the legacy one of the driver, and report whether anything was there |
| `GeoStore.Store.NearbyDrivers` | servers/redis_client.py:709-788 | refuses exactly the invalid queries; every answer is a live member within the radius of the one index of the vehicle type asked for, or of the scanned indexes if none was; and when no lapsed member spoils an index that has to be cut off, the answers are the `count` nearest of exactly those |
| `GeoStore.NearbyIsOffered` | servers/redis_client.py:743-788 | the same of the search as a function of the indexes, the heartbeats and the scan |
| `GeoStore.ScanSeesAll` | servers/redis_client.py:745-748 | a scan that reports every key once searches the indexes themselves |
| `Money.ToMinorIsNearest` | base/money.py:189-202 | for at most 28 digits, the result is m iff m is the nearest integer, ties away from zero, and itself fits |
| `Money.ToMinorFails` | base/money.py:189-202 | a conversion fails with a type error iff the amount is no number, and otherwise with an unsupported currency iff the code is not in the table |
| `Money.NumbersAreRead` | base/money.py:148-187 | decimals, integers and texts are read as the number they are, a float only from a request and through its text, and nothing else is an amount |
| `Money.TextsAreRead` | base/money.py:161-170 | a text is an amount iff, but for white space at its ends and one sign, it is digits with at most one point and perhaps an exponent; and it is that number |
| `Money.FromMinorIsExact` | base/money.py:205-217 | minor units become major ones exactly, with the digits of the currency |
| `Money.MajorStringShows` | base/money.py:245-248 | the wire form is the sign and the digits with the point before the last ones, as many as the currency has, exactly but for an amount that starts after the sixth place |
| `MoneyRounding.ToMinorIsMonotone` | base/money.py:189-202 | a larger amount never converts to fewer minor units, however many digits either has |
| `MoneyRounding.NearestExactly` | base/money.py:189-202 | for an amount of any number of digits, the result is the nearest integer iff the context's rounding to 28 digits does not carry what is left over across one half |
| `MoneyRounding.QuantizeIsNearest` | base/money.py:220-242 | quantizing, and a fare in a currency not charged in whole units, has the digits of the currency and is the nearest iff the rounding to 28 digits does not cross one half |
| `Money.TwentyNineDigitsRoundTwice` | base/money.py:201-202 | a 29-digit amount whose converted value is not the nearest |
| `Money.MinorRoundTrip` | base/money.py:205-217 | to_minor undoes from_minor exactly for the integers below 10^28 |
| `Money.MajorStringRoundTrip` | base/money.py:245-248 | reading the printed amount and converting gives the integer back, exactly within 28 digits, for every currency |
| `Money.QuantizeIdempotent` | base/money.py:220-228 | quantizing twice is quantizing once |
| `Money.RoundFareIdempotent` | base/money.py:236-242 | rounding a fare twice is rounding it once |
| `Money.RoundFareIsNearest` | base/money.py:236-242 | a fare in whole units is the nearest whole amount, ties away from zero, and is refused iff it does not fit |
| `DecimalText.ReadText` | base/money.py:165 | every decimal is read back from its text, coefficient and exponent |
| `DecimalText.ReadIs` | base/money.py:165 | which texts are read as a number, and as which |
| `DecimalText.PointPlaced` | base/money.py:248 | a number printed without an exponent has its digits with the point in place, and a digit before it |
| `DecimalText.TextIsTrimmed` | base/money.py:248 | a printed decimal has no white space around it |
| `Decimals.HalfUpIsNearestAway` | base/money.py:73 | half up is the nearest integer, ties away from zero |
| `Decimals.NearestAwayIsUnique` | base/money.py:73 | there is only one such integer |
| `GatewayFloat.NoBinary64IsNearer` | base/money.py:515-516 | for every amount of at most 28 digits, what is sent is a binary64 number and no binary64 number is nearer to the amount |
| `GatewayFloat.FloatDeterminesAmount` | base/money.py:505-516 | up to 100 * 2^46 minor units, either sign, the float gives the amount back |
| `GatewayFloat.TwoAmountsShareAFloat` | base/money.py:512-513 | two amounts below 2^53 that are sent as one float |
| `GatewayFloat.ExactBound` | base/money.py:512-513 | the exact bounds up to which amounts are recovered, and up to which floats are distinct |
| `MoneyMigration.ExactMinorIsExact` | base/money_migration.py:36-44 | converting a stored value succeeds iff it is whole in minor units, and is then exact, None kept |
| `MoneyMigration.ExactAgrees` | base/money_migration.py:57-60 | the verifying comparison passes on every exact value |
| `MoneyMigration.AgreesExactly` | base/money_migration.py:57-60 | the verifying comparison passes on a stored value iff the minor units are exactly it |
| `MoneyMigration.WiderColumnsWouldLoseSilently` | base/money_migration.py:39-44 | beyond 28 digits both passes round alike and a lost unit goes unseen |
| `MoneyMigration.BackwardUndoesForward` | base/money_migration.py:97-98 | the rebuilt value is the original number |
| `MoneyMigration.TableRoundTrip` | base/money_migration.py:69-107 | forward then backward restores every value of every row |
| `MoneyMigration.Table.Forward` | base/money_migration.py:69-86 | for any rows and batch size: originals untouched, success iff every value is whole, and then every row exact; a failure names a value that is not whole |
| `MoneyMigration.Table.ConvertRow` | base/money_migration.py:75-78 | converts one row, or names a field that is not whole |
| `MoneyMigration.Table.Verify` | base/money_migration.py:51-66 | passes iff every row is exact, and otherwise reports how many values are not |
| `MoneyMigration.Table.Backward` | base/money_migration.py:89-107 | every row rebuilt from its minor units, in batches, and exact |
| `MoneyMigration.Table.BulkUpdate` | base/money_migration.py:81 | writes the minor-unit columns of one batch and nothing else |
| `WalletPayments.RunKeepsInv` | base/utils.py:254-306 | in every interleaving keys stay unique, locks exclusive, and no balance falls below what is held |
| `WalletPayments.RunConserves` | base/utils.py:277-292 | balance plus completed debits, of any part of the platform, is constant but for credits |
| `WalletPayments.KeyDebitsOnce` | base/utils.py:251-262 | successes with one key name one row, of whatever kind, and at most one of them made it; a call without a key gets one nobody else has |
| `WalletPayments.PaidDebitsTheAmount` | base/utils.py:264-292 | a paid call's row is a completed debit of its own user and key, and its amount is the nearest integer number of minor units of what was asked, in the currency of the wallet |
| `WalletPayments.PaidIfItCanBe` | base/utils.py:242-312 | a call alone, of a positive amount of at most 28 digits, a new key, a known wallet and currency, is paid iff that many minor units may be spent, and the ledger and the wallet are then spelled out |
| `WalletPayments.FailsIfItCannotBe` | base/utils.py:242-269 | alone, a call without a positive amount, a known wallet or a supported currency fails and changes nothing, and one with a known key names the row under it |
| `WalletPayments.SuccessIsOwnExactly` | base/utils.py:254-262 | a success names a completed debit of the caller's own user and amount iff, when it looked, its key was new or the row under it was that |
| `WalletPayments.AnothersKeyIsASuccess` | base/utils.py:254-262 | a run in which the key of another user's row is answered as a success and nothing is taken |
| `WalletPayments.OneDebitPerPaidCall` | base/utils.py:283-292 | beside the rows of other parts of the platform there is one new row per call answered paid, and no other |
| `WalletPayments.OnlyPaidWrites` | base/utils.py:264-312 | a failed or aborted call changes neither wallets nor ledger |
| `WalletPayments.HeldIsKept` | base/utils.py:276-278 | no debit takes a balance below the held amount |
| `WalletPayments.SomebodyCanMove` | base/utils.py:265-292 | the waits for row locks and keys that hold a call up lead, through at most one other, to a call that can take a step |
| `WalletPayments.MovesUnlessWaiting` | base/utils.py:265-292 | a call that is not done can take a step iff it waits for nobody |
| `WalletPayments.Ledger.WalletPayment` | base/utils.py:242-312 | one call alone takes exactly the protocol's steps; paid, it has taken the nearest number of minor units from that wallet and added one row of it, and a failure changes nothing |
| `Payouts.AtMostOnePayout` | integrations/payouts/razorpayx.py:157-186 | the provider compares headers only; any calls, lost replies and retries create at most one payout per 40-character reference |
| `Payouts.CreatedAsAsked` | integrations/payouts/razorpayx.py:157-245 | every payout created is what some dispatched call asked for: its amount in paise, the call's fund account or else the one set up, its mode, and as header and reference the first 40 characters of its reference; refused calls and failures before the payout create none |
| `Payouts.PaidIsThere` | integrations/payouts/razorpayx.py:186-199 | a returned result names the payout of its reference in the ledger, it was no definite no, and a new one is what the call asked for |
| `Payouts.EveryOutcome` | integrations/payouts/razorpayx.py:157-245 | for any call and fate: a payout is added iff the call may be sent, is set up, arrives and has a new reference, and which; the outcome is unknown iff such a call is not answered or with a server error; and it is paid iff it is well answered and the payout of the reference will pay |
| `Payouts.SamePayoutNamed` | integrations/payouts/razorpayx.py:188-199 | all results for one reference name the same payout |
| `Payouts.NoneIsANo` | integrations/payouts/razorpayx.py:179-185 | None adds no payout that may pay iff it was not an unreadable answer below 500 to a request that created one |
| `Payouts.MuffledAnswerHidesAPayout` | integrations/payouts/razorpayx.py:179-182 | a 200 without a body answered None while the payout pays |
| `Payouts.RetryResolves` | integrations/payouts/razorpayx.py:170-186 | a delivered retry closes an unknown outcome truthfully and adds nothing if the payout was there |
| `Payouts.Provider.CreatePayout` | integrations/payouts/razorpayx.py:157-186 | the call against the provider's ledger, with the outcome rules |
| `Payouts.Provider.Dispatch` | integrations/payouts/razorpayx.py:201-245 | the checks, contact, fund account and payout in order |
| `Refunds.AtMostOneRefund` | integrations/payments/razorpay.py:227-270 | any calls, retries and moves create at most one refund per payment and caller reference (or amount, where none is given) |
| `Refunds.CreatedAsAsked` | integrations/payments/razorpay.py:227-270 | every refund created is what some acceptable call asked for: the payment it named, or the first settled one of its order then; its amount; and a receipt of the first 40 characters of its reference, or of one made of payment and amount |
| `Refunds.AnswerIsTheRefund` | integrations/payments/razorpay.py:264-270 | an answer names the refund of its payment and receipt |
| `Refunds.EveryOutcome` | integrations/payments/razorpay.py:227-280 | for any acceptable call about a payment and any fates: a refund is added iff the request arrives and the receipt is new, and which; and one is named iff a new one is answered 200, or a known one 400 and then looked up, unless it has failed |
| `Refunds.NothingToRefund` | integrations/payments/razorpay.py:227-252 | a call that may not be sent, or has no payment, does nothing |
| `Refunds.SameRefundNamed` | integrations/payments/razorpay.py:253-270 | all answers for one payment and receipt report the same refund |
| `Refunds.RepeatFindsTheRefund` | integrations/payments/razorpay.py:255-257 | a duplicate receipt is resolved to the refund there is, and creates nothing |
| `Refunds.OrderKeepsItsPayment` | integrations/payments/razorpay.py:212-223 | an order keeps resolving to its payment exactly while no earlier listed payment gets captured |
| `Refunds.OneRefundPerOrder` | integrations/payments/razorpay.py:212-270 | over any repeats of one order and reference and any moves of its payments, a single refund is left iff no earlier listed payment was captured in between |
| `Refunds.LateCaptureRefundsTwice` | integrations/payments/razorpay.py:242-249 | after a late capture one reference refunds two payments of an order |
| `Refunds.Provider.IssueRefund` | integrations/payments/razorpay.py:227-270 | the adapter's branches against the provider's ledger |
| `Refunds.Provider.ExistingRefund` | integrations/payments/razorpay.py:272-280 | the search finds the refund with the receipt, or nothing when the listing fails |
| `Refunds.Provider.PaymentIdForOrder` | integrations/payments/razorpay.py:212-223 | the search finds the first captured or refunded payment |
| `MigrationGate.WaitForMigrations` | base/migration_gate.py:133-218 | terminates; sleeps sum to at most the timeout; at most two attempts beyond the delays that fit; passes only on an empty plan and gives up only after a late check |
| `MigrationGate.FullDelaysIsExact` | base/migration_gate.py:181-194 | the count of backoff delays that fit is exact |
| `MigrationGate.DelayDoubles` | base/migration_gate.py:181-194 | every delay is twice the one before, up to the longest |
| `MaskingShown.MaskEmailShows` | servers/admin_access/masking.py:114-121 | an address shows its first letter and its domain in place and bullets between; one letter gets a bullet after it, none gets four before, and a text without an at sign is four bullets |
| `MaskingShown.MaskPhoneIsShown` | servers/admin_access/masking.py:94-111 | a number shows a country code and its last four in place and bullets between; what a short one shows, character by character |
| `MaskingShown.MaskLast4Shows` | servers/admin_access/masking.py:197-208 | an account shows its last four in place and bullets before, and four or fewer characters show nothing |
| `MaskingShown.MaskUpiShows` | servers/admin_access/masking.py:211-223 | a handle is shown like an address, and any other like an account |
| `MaskingShown.MaskIdentifierShows` | servers/admin_access/masking.py:151-173 | a username is shown like an address or a number iff it looks like one, and otherwise whole |
| `MaskingShown.ShortNameShows` | servers/admin_access/masking.py:129-148 | a name of one word is shown whole, and of more as its first word and the initial of its last |
| `MaskingShown.MaskContactShows` | servers/admin_access/masking.py:176-194 | a label is shown as what it looks like, without the white space about it |
| `MaskingShown.MaskNameShows` | servers/admin_access/masking.py:129-148 | a name raises iff it is nothing but white space, and is otherwise shown as what it looks like |
| `MaskingShown.MaskAddressShows` | servers/admin_access/masking.py:226-259 | an address is shown as it was masked before, as a dropped pin iff it is two numbers, and otherwise as its last components behind four bullets: two of three, three of four or more, one of two, none of one |
| `MaskingShown.PinIs` | servers/admin_access/masking.py:263 | which texts are a dropped pin: two numbers of up to three digits and perhaps a fraction, a comma between, and perhaps a bracket at either end |
| `MaskingShown.PostcodesGo` | servers/admin_access/masking.py:258-262 | word by word, all and only the words of five or more digits go |
| `MaskingShown.SplitIs` | servers/admin_access/masking.py:249 | the pieces joined with commas are the text, and hold none |
| `Masking.MaskPhoneShows` | servers/admin_access/masking.py:94-111 | shows the country code and the last four in place and nothing between, but all of a number no longer than that |
| `Masking.MaskPhoneTwice` | servers/admin_access/masking.py:94-111 | idempotent except on a plus sign with fewer than three characters after it |
| `Masking.MaskEmailTwice` | servers/admin_access/masking.py:114-121 | idempotent on all strings |
| `Masking.MaskLast4Twice` | servers/admin_access/masking.py:197-208 | idempotent on all strings |
| `Masking.MaskUpiTwice` | servers/admin_access/masking.py:211-223 | idempotent on all strings |
| `Masking.MaskIdentifierTwice` | servers/admin_access/masking.py:151-173 | the exact strings on which it is idempotent |
| `Masking.MaskContactTwice` | servers/admin_access/masking.py:176-194 | never raises, and the exact strings on which it is idempotent |
| `Masking.MaskNameTwice` | servers/admin_access/masking.py:129-148 | raises exactly on white space, and the exact strings on which it is idempotent |
| `Masking.MaskedPhoneShaped` | servers/admin_access/masking.py:124-126 | when a masked number still looks like a number |
| `Masking.NamesMaskedAgain` | servers/admin_access/masking.py:129-148 | two numbers in a name field that a second pass changes |
| `Coordinates.RoundedIsNearest` | servers/admin_access/masking.py:268-281 | a magnitude is shown as m hundredths iff they are the nearest, ties to even, and have at most 28 digits |
| `Coordinates.RaisesExactly` | servers/admin_access/masking.py:280-281 | rounding is an invalid operation iff the magnitude is at least 10^26 less half a hundredth |
| `Coordinates.ReadsWhatIsWritten` | servers/admin_access/masking.py:276-281 | a number is read with its sign and without the white space about it, however it is written |
| `Coordinates.NamesAreRead` | servers/admin_access/masking.py:276-281 | which texts are read as an infinity or a NaN |
| `Coordinates.ShownTwice` | servers/admin_access/masking.py:268-286 | whatever text was read, the rounded text is read and shown as itself |
| `Coordinates.FloatsFit` | servers/admin_access/masking.py:282-283 | whatever float arrives, the float its rounding gives can be rounded again |
| `MaskingAddress.MaskAddressTwice` | servers/admin_access/masking.py:226-259 | idempotent except where only postcodes would survive |
| `MaskingAddress.NoPostcodeSurvives` | servers/admin_access/masking.py:258-262 | dropping postcodes leaves none to drop |
| `MaskPayload.EveryPath` | servers/admin_access/masking.py:419-458 | every path keeps its shape, and each scalar becomes exactly what its own key's masker makes of it, or stays if it has none or lies in an operator snapshot |
| `PayloadShown.EveryPathShows` | servers/admin_access/masking.py:294-458 | every scalar, wherever it lies, is kept if it lies in the record of a staff decision or in a list, and otherwise shows exactly what a field of its kind shows: which letters, digits, words or hundredths |
| `PayloadShown.ApplyShows` | servers/admin_access/masking.py:294-370 | what a field of each kind shows of its value to which viewer |
| `PayloadShown.KindIs` | servers/admin_access/masking.py:294-370 | a field is of the kind its name is listed under |
| `MaskPayload.MaskReturns` | servers/admin_access/masking.py:268-455 | the walk raises iff a strict viewer meets a name of white space or a coordinate that cannot be rounded |
| `MaskPayload.ThirtyZerosRaise` | servers/admin_access/masking.py:280-281 | a strict viewer's latitude of "1E+30" raises |
| `MaskPayload.EveryPathLeft` | servers/admin_access/masking.py:419-458 | a payload a walk has left by raising has every path it had, and each scalar is as it was or exactly what its masker makes of it |
| `MaskPayload.MaskTwice` | servers/admin_access/masking.py:419-458 | a second pass is a no-op exactly where every masked value settles |
| `MaskPayload.ApplyTwice` | servers/admin_access/masking.py:362-370 | the settling condition, masker by masker |
| `MaskPayload.CoordinateTwice` | servers/admin_access/masking.py:268-286 | a rounded coordinate is rounded to itself, text, integer, decimal or float; a float needs room for the float nearest to its hundredths |
| `MaskPayload.FloatsSettle` | servers/admin_access/masking.py:282-283 | every float a payload can hold has that room |
| `MaskPayload.MaskPayload` | servers/admin_access/masking.py:419-458 | the walk over items and keys in any order computes the masked tree, and leaves a partly masked one when it raises |

## Left out

- Dispatch waves, fare quoting, promotions, settlement, the rules that make a driver fatigued, and payment
  creation: calls whose effect on the trip row is a counter, or a column of the driver's; their own locks
  (driver wallet, rider wallet) are not modelled. A lockout that a check stamps on the driver is one of
  the changes that may happen at any time the row is not locked.
- Wallet rows whose status changes later, and wallets of other scopes than the rider's.
- Other writers of trips (REST views, the operator's end-trip, recovery jobs) are not processes of the
  protocol; nor are the OTP attempt cache and its lockout.
- The refund step of a cancellation is counted as part of the transaction. In the code it may call the
  gateway, whose effect a rollback does not undo; the refund receipts cover a repeat.
- The two authorisation queries of a cancel are one read of a committed row.
- Dismissed offers, pushes, receipts, stream events and cache writes after a commit are only the chance
  to raise or to lose the reply.
- `MigrationGate.WaitForMigrations`: needs positive delays, because with a zero delay the loop ends only
  if the checks themselves take time; closing the database connection is not modelled.
- `MoneyMigration.Table.Backward`: columns are within the 64-bit range of the database; a minor value
  that overflows its column, and the server-side cursor of the row iterator, are not modelled.
- `GeoStore.Store.NearbyDrivers`: what a repeated or missing key of the scan does to the search is stated
  for the scanned lists only; the theorems about the indexes are for a scan of each key once.
- `GeoStore.Store.SweepStaleDrivers`: is one atomic operation here; what a ping between the heartbeat check
  and the removal of a member does is said of one key at a time, in `GeoSweep`.
- `GeoStore.Store.AddDriverLocation`: takes the vehicle type as already trimmed and lower-cased, and
  does not keep the live position key of the operations map.
- A Redis client that is missing or fails in the middle of a command is not modelled, beyond a failed read
  of the active-trip key; nor is the database write of a ping.
- Distances are an arbitrary function of an entry; ties within one sorted set follow the order of its
  entries.
- `MaskPayload.MaskPayload`: returns the payload as the walk leaves it instead of changing it in place, so
  a container that occurs twice in a payload is two containers.
- `Masking.MaskNameTwice`: digits are the ASCII digits; other Unicode digits also count as digits in the
  code. The word characters of a postcode are the ASCII ones.
- Decimals: negative zero of money, exponents beyond the range of the context, underscores and digits that
  are not ASCII in number texts, and case folding of currency codes are not modelled; the float range is
  unbounded above.
- `Refunds.Provider.ExistingRefund`: the listing returns all refunds of a payment; paging is not modelled.
- Contact names, narrations and notes sent to the provider, signature checks and the status queries.
- `MinorUnitsAmount`, `sum_by_currency` and formatting for display: short case splits beside the
  conversions.
- Redis, Celery, Channels and Django plumbing, health checks, throttles, permission tables.
