# Booking consistency, in Dafny

A model of the rental platform's booking core and of the small algorithms around it, with proofs.
`dafny verify dfyconfig.toml` checks all of it.

## What is modelled

Many requests, webhooks, staff actions and background jobs change the same reservations and cars. The
backend keeps them consistent with advisory locks, a lifecycle graph and a car status that follows the
reservations. The modules follow those parts.

- `ReservationStatus`: the 14 statuses and the transition table. A run is a sequence of edges; its length
  is bounded by a potential, and the table of futures is exactly the reachability relation.
- `LockOrder`: which advisory keys one transaction takes, and in what order.
- `HoldProtocol`, `HoldSafety`, `HoldSession`, `HoldProgress`: hold create and rehold statement by
  statement, as interleaved steps of any number of transactions, together with the other status writers and
  staff bookings. A transaction commits only where its program returns. A statement sees the committed rows and its own transaction's writes. `hashtext` is any
  function of strings. The exclusion constraint and the unique index of the schema are left out on purpose:
  the proofs rest on the locks and on the lifecycle.
- `SessionLocks`, `LockRetry`, `BackgroundJobs`: the checkout and job locks held by pooled connections,
  first as a state machine of any number of callers, then as the retry loop of one.
- `FleetSync`, `FleetTransactions`: the status of one car against all its reservations.
- `HoldCleanup`: the pass over processing holds whose time is over, on stale Stripe answers.
- `HoldTiming`: the hold window against the life of the payment session.
- `Migrations`: versioned migrations and the fresh-schema seed, over any number of containers and crashes.
- `Gregorian`, `FleetAlerts`, `AlertStore`: day numbers as in section 21.4.1 of ECMA-262, the alerts that
  are due on a day, and the run that brings the alert table to them.
- `CalendarDays`: day addition on dates and the search for a date on a weekday.
- `Csv`: the analytics export and the character loop that reads it back (section 2 of RFC 4180).
- `SearchParams`: the trip criteria in the URL; the customer and the staff front end have the same functions.
- `HtmlEscape`: text for HTML, and one-line mail headers.
- `Results`, `Text`: options, results, and the string operations that several modules share.

## What the proofs found

- Session uniqueness of holds does not follow from the locks alone. A create expires the session's stale
  holds against the time its caller read, and then looks for an active hold against a fresh clock. A hold
  that lapses between the two is seen by neither. `HoldSession.SessionsDoubleExactly` gives the exact
  condition over whole runs, `HoldSession.ChoiceDecides` the one that can be told at the choice, and
  `HoldSession.LapsedHoldCanDouble` a run with two live holds; the unique index of
  `backend/sql/schema/031_reservations_one_active_hold_per_session.sql` is what closes this gap.
- Once its car locks are taken a hold transaction waits for no other one: the rows it sweeps, locks and
  updates are free, and a rehold's update always finds its row.
- The car status loses agreement in exactly three ways: a return while another reservation has the car
  out, a refund of the last booking of a reserved car (`refunded` has no branch), and a staff booking of an
  available car (a confirmed row is inserted without a sync). Each of the three happens on a legal history
  from a free car.
- Lifecycle runs have at most 10 + 2r + 4c edges, for r retries and c reopenings, and the bound is attained.
- `cancelled` and `expired` are listed as terminal and are not absorbing.
- The check of a status change and its throwing guard differ on one case: an unknown status kept as it is.
- A time of the form dd:dd is let through unchecked (`99:99`), a time of the form d:dd is range-checked.
- The CSV reader cuts a text into lines before it looks at quotes: an export reads back exactly when no
  shown text holds a line feed.
- Adding days to a date of the years 0 to 99 counts from another century, as Date.UTC does.
- A payment session ends up to a second less than thirty minutes after its creation, by rounding down.
- A DATE column reaches the alert run as local midnight and is read back in UTC: in a process east of
  Greenwich the day is one early, and a paper is critical on its last valid day.
- Serial histories of a car are exactly the logs of interleaved runs: each legal history happens, and no other.
- A setup call that dies anywhere is made good by one more call; no lock, pool client or open change is ever stuck.
- If the compliance table is missing during an alert run, its alerts are taken for settled and resolved.

## Model

| member | source | states |
|---|---|---|
| ReservationStatus.GuardVersusCheck | backend/src/domain/reservationStatus.js:131-173 | The boolean check and the throwing guard agree on every pair of raw statuses, except exactly an unknown status kept as it is. |
| ReservationStatus.RunLength | backend/src/domain/reservationStatus.js:37-58 | Every run of status changes has at most 10 + 2r + 4c edges, for r retries of a payment and c reopenings of a cancelled booking. |
| ReservationStatus.RunLengthIsTight | backend/src/domain/reservationStatus.js:37-58 | For every r and c some run attains that bound. |
| ReservationStatus.HoldsAreNeverReentered | backend/src/domain/reservationStatus.js:24-58 | A run that has left the hold statuses never returns to one. |
| ReservationStatus.PaidIsNeverExpired | backend/src/domain/reservationStatus.js:37-58 | After paid no run reaches expired. |
| ReservationStatus.PickupFollowsPreparation | backend/src/domain/reservationStatus.js:37-58 | In a run of a new row each picked_up stands directly after confirmed and car_prepared. |
| ReservationStatus.OperationalOnlyAfterPaidOrReview | backend/src/domain/reservationStatus.js:37-120 | A run from pending_payment that reaches an operational status has passed through paid or manual_review. |
| ReservationStatus.FutureIsExact | backend/src/domain/reservationStatus.js:37-58 | The table of futures holds exactly the statuses that some run reaches. |
| ReservationStatus.TerminalIsNotAbsorbing | backend/src/domain/reservationStatus.js:29-58 | Of the statuses listed as terminal exactly cancelled and expired lead anywhere, and those two can still end completed. |
| ReservationStatus.EndingsComeFrom | backend/src/domain/reservationStatus.js:37-58 | From exactly which statuses one step leads to each ending: cancelled, expired, no_show, refunded and completed. |
| ReservationStatus.BookingStepsComeFrom | backend/src/domain/reservationStatus.js:37-58 | From exactly which statuses one step leads to each of the statuses of payment, review, booking and rental. |
| ReservationStatus.CancellableExactly | backend/src/domain/reservationStatus.js:37-58 | One step leads to cancelled iff the booking is a hold, or can still come to a pickup and is not out, cancelled or expired already. |
| ReservationStatus.CheckMeans | backend/src/domain/reservationStatus.js:131-173 | A new row may begin as pending_payment or confirmed and as nothing else; any other, with known statuses, may stay or take an edge of the graph; a refusal names both statuses. |
| LockOrder.CarLockOrderContents | backend/src/db/transaction.js:185-201 | The car lock sequence is ascending and holds exactly the valid ids of the input. |
| LockOrder.SameCarsSameOrder | backend/src/db/transaction.js:185-201 | Two id lists take the same lock sequence iff they name the same valid cars: permutation, repetition and invalid entries do not matter. |
| LockOrder.TransactionClient.AcquireCarAdvisoryLock | backend/src/db/transaction.js:168-175 | Takes the car's key after those held, or refuses an id that is no positive integer and takes nothing. |
| LockOrder.TransactionClient.AcquireCarAdvisoryLocks | backend/src/db/transaction.js:185-201 | Takes the keys of the canonical sequence one by one, after those already held. |
| LockOrder.TransactionClient.AcquireSessionAdvisoryLock | backend/src/db/transaction.js:212-221 | Takes the key of the hashed session id, or refuses a missing or empty one and takes nothing. |
| LockOrder.TransactionClient.AcquireHoldLocks | backend/src/services/sql/reservation/reservationHoldCreate.js:171-178 | The prologue of a hold transaction: its keys stand in the canonical order, the session before every car, each involved car once. |
| HoldSafety.StepKeepsInv | backend/src/services/sql/reservation/reservationHoldCreate.js:171-239 | Every step of every writer keeps the invariant: lock table exact, row locks exclusive, each transaction's view as its checks found it, no conflicting holds. |
| HoldSafety.CommitIsSafe | backend/src/services/sql/reservation/reservationHoldRehold.js:184-249 | What a hold transaction commits, from whatever point it ends at, holds no two holds of one car that share an instant. |
| HoldSafety.CarRowsFree | backend/src/db/transaction.js:28-36 | A row on a car that a transaction has locked is never row-locked by another hold transaction. |
| HoldSafety.HoldsNeverConflict | backend/src/services/sql/reservation/reservationHoldCreate.js:141-260 | In every interleaving of any number of creates, reholds, lifecycle changes and staff bookings, no instant lies in the ranges of two different holds of one car. |
| HoldSafety.OverlapIsSharedInstant | backend/src/services/sql/reservation/reservationReadRepository.js:137-150 | For non-empty ranges the test of the overlap query holds iff some instant lies in both ranges. |
| HoldSafety.CheckIsExact | backend/src/services/sql/reservation/reservationReadRepository.js:137-150 | A hold transaction passes its overlap test iff no other active hold of the car shares an instant with the wanted range. |
| HoldSafety.CreateWrites | backend/src/services/sql/reservation/reservationHoldCreate.js:67-138 | A create buffers one new row, pending, with the requested session, car and range, for a full window from the clock; it is not yet visible. |
| HoldSafety.ReholdWrites | backend/src/services/sql/reservation/reservationHoldRehold.js:66-114 | A rehold moves its locked row, and no other, to the requested car and range, still pending, for a full window. |
| HoldSafety.SweepMeans | backend/src/services/sql/reservation/reservationHoldExpiry.js:9-94 | A sweep expires, as of the caller's time, exactly the holds of the car or session whose time is over; every other row is as it was. |
| HoldSafety.CommitMeans | backend/src/db/transaction.js:108-129 | A commit makes the table what its transaction saw; rows that it did not write are as they were. |
| HoldSafety.OnlyCommitsShow | backend/src/db/transaction.js:108-129 | Until its commit nothing that a transaction does changes the table; a rollback leaves nothing but its freed locks. |
| HoldSafety.OthersWrite | backend/src/services/reservation/reservationStatusService.js:123-135 | A status change from elsewhere writes the status and expiry of one row, a staff booking adds one confirmed row. |
| HoldSafety.RowsLiveTheLifecycle | backend/src/services/sql/reservation/reservationHoldRehold.js:66-114 | Rows never vanish, keep their session, change status only along the graph, and are moved to another car or range only while pending payment. |
| HoldSession.SessionsDoubleExactly | backend/src/services/sql/reservation/reservationHoldCreate.js:171-239 | Over every run: some session has two holds at some point iff some create overlooks a hold that lapsed between its caller's clock read and its own, and commits its row while that is still a hold. |
| HoldSession.UniquenessOverRuns | backend/src/services/sql/reservation/reservationHoldCreate.js:171-239 | Every session has one hold throughout a run iff no step of it commits a create's row beside another hold of its session; no other step of anybody breaks uniqueness. |
| HoldSession.CommitDoublesExactly | backend/src/services/sql/reservation/reservationHoldCreate.js:219-239 | From a table with one hold per session, a commit breaks that iff it is a create's own row beside another hold of the session. |
| HoldSession.ChoiceDecides | backend/src/services/sql/reservation/reservationHoldCreate.js:179-239 | At the choice: left alone, the create ends with its row in the wanted slot iff no active hold stands there, and with its session holding twice iff in addition it overlooks a lapsed hold. |
| HoldSession.SessionsHaveOneHold | backend/src/services/sql/reservation/reservationHoldCreate.js:171-187 | A run in which no create overlooks a hold keeps one hold per session at every point. |
| HoldSession.LapseIsExact | backend/src/services/sql/reservation/reservationReadRepository.js:71-95 | When a create finds no active hold, the holds of its session are exactly those that lapsed after the caller's clock read and not later than the query's own. |
| HoldSession.LapsedHoldCanDouble | backend/src/services/payment/checkout/checkoutReservationService.js:153-181 | A concrete run from a table with a single hold ends with two live holds of one session: the lapsed hold is revived by a checkout refresh. |
| HoldProgress.SomeoneIsFree | backend/src/db/transaction.js:28-36 | Whenever a hold transaction is unfinished, some unfinished one is not waiting for an advisory lock. |
| HoldProgress.RowLocksAreFree | backend/src/services/sql/reservation/reservationHoldRehold.js:159-187 | Once its car locks are taken, no row that a transaction sweeps, locks (the peeked row of a rehold included) or writes is row-locked by another hold transaction. |
| HoldProgress.ReholdReadDecides | backend/src/services/sql/reservation/reservationHoldRehold.js:146-172 | A rehold returns right after its read iff an active hold of its session is paying, goes on with one iff it is pending, and without one iff there is none; with one hold a session exactly one of these. |
| HoldProgress.ChooseTargetReady | backend/src/services/sql/reservation/reservationHoldRehold.js:161-182 | The locking read of the peeked row never waits: the program goes on with the row or returns, exactly one of the two. |
| HoldProgress.WriteReady | backend/src/services/sql/reservation/reservationHoldRehold.js:235-258 | The update of a rehold always finds its row still pending; an open rental or a booked range may make the program return instead. |
| HoldProgress.OnlyAdvisoryLocksWait | backend/src/db/transaction.js:28-36 | An unfinished transaction has no enabled step of its own program iff it waits for an advisory lock that another one holds. |
| HoldProgress.EndIsFinal | backend/src/db/transaction.js:108-129 | A transaction may fail at any point until it has ended, and then takes no step any more. |
| HoldProgress.SweepCarReady | backend/src/services/sql/reservation/reservationHoldExpiry.js:9-48 | Once its target is chosen, a transaction's sweep of stale holds on its cars is always enabled: it never waits for a row lock. |
| HoldProgress.NoDeadlock | backend/src/db/transaction.js:28-36 | In every reachable state with an unfinished transaction some transaction's own next program step is enabled; commits count only where the program returns. |
| HoldProgress.OwnStepsTerminate | backend/src/db/transaction.js:108-129 | Each own step of a transaction strictly lowers a well-founded measure of the whole system; steps of other writers leave it alone. |
| HoldProgress.NeverStuck | backend/src/db/transaction.js:28-36 | From every reachable state the transactions can all complete by steps of their own programs alone. |
| SessionLocks.OneWorkPerKey | backend/src/db/transaction.js:369-480 | In every interleaving at most one work body at a time belongs to a reservation id or job key, for any hash and pool. |
| SessionLocks.OutcomesAreHonest | backend/src/db/transaction.js:369-480 | Told by the steps taken: a caller returns normally iff its work ended well, throws iff its work or its try threw; the work happened at most once; skipped and busy mean never, busy only after every attempt with a sleep between each two. |
| SessionLocks.ClientsComeBackClean | backend/src/db/transaction.js:378-392 | A client in the pool, or about to go back, holds no session-level lock; with every caller finished nothing is locked. |
| SessionLocks.RefusedOnlyByAHolder | backend/src/db/transaction.js:314-322 | A try is refused iff another caller holds the same key: a hash collision costs a wait or a skip, nothing else. |
| SessionLocks.GrantsNest | backend/src/db/transaction.js:314-322 | A lock granted again to its own connection is counted: each unlock undoes one grant, and one from another connection undoes none. |
| SessionLocks.OwnStepsEnd | backend/src/db/transaction.js:369-480 | Each own step of a caller, whatever is answered, lowers a measure of at most six steps an attempt, and leaves every other caller where it is. |
| SessionLocks.NeverStuck | backend/src/db/transaction.js:369-480 | From every reachable state with a client at all every caller can finish by own steps alone, and then nothing is locked. |
| SessionLocks.AloneGetsThrough | backend/src/db/transaction.js:376-392 | A caller that comes while nothing is locked gets its lock at the first try, works once, passes on how that ended, and leaves pool and locks as it found them. |
| LockRetry.LockCaller.WithReservationCheckoutLock | backend/src/db/transaction.js:369-401 | The loop leaves exactly the specified trace of connects, tries, work, unlocks, releases and sleeps, whether tries are granted, refused or throw, and refuses an invalid id before borrowing a client. |
| LockRetry.LockCaller.WithJobLock | backend/src/db/transaction.js:461-480 | One attempt; a refused one is reported skipped, a try that throws is passed on, a blank key is an error before any client is borrowed. |
| LockRetry.CheckoutIsDisciplined | backend/src/db/transaction.js:376-400 | On every exit path, a throwing try included, each client goes back unlocked before any sleep; the first answer that is no refusal decides between work once, an error passed on, and busy. |
| LockRetry.AttemptIsDisciplined | backend/src/db/transaction.js:463-479 | The same for a single attempt, and so for a job. |
| LockRetry.AttemptHappens | backend/src/db/transaction.js:376-392 | An attempt borrows a client, meets the one answer, works iff it is a grant, and gives the client back. |
| LockRetry.DelayRange | backend/src/db/transaction.js:281-288 | A delay lies in the upper half of its window, the window's end excluded, and both ends of that range are attained. |
| LockRetry.WaitingIsBounded | backend/src/db/transaction.js:223-288 | With n >= 4 attempts a caller sleeps at most 172 + 199(n - 4) ms, at least 87 + 100(n - 4) when it gives up; both are attained. |
| LockRetry.DefaultWaiting | backend/src/db/transaction.js:223-288 | With the shipped limit of 40 attempts a checkout waits at most 7336 ms, and at least 3687 ms before it reports busy. |
| LockRetry.WaitingWithRounding | backend/src/db/transaction.js:281-288 | Even when rounding takes every delay to the end of its window, n >= 4 attempts sleep at most 175 + 200(n - 4) ms. |
| BackgroundJobs.JobRunner.RunLockedJob | backend/src/jobs/backgroundJobRunner.js:47-71 | A failing job is counted and reported, never thrown; a skipped one leaves no mark; success is stamped; the lock trace is that of one attempt. |
| BackgroundJobs.JobRunner.RegisterInterval | backend/src/jobs/backgroundJobRunner.js:81-85 | Adds a fresh timer to the live ones. |
| BackgroundJobs.JobRunner.StopBackgroundJobs | backend/src/jobs/backgroundJobRunner.js:155-160 | Clears every live timer exactly once, last registered first, and leaves none; every timer that was live is cleared. |
| BackgroundJobs.ReversedContents | backend/src/jobs/backgroundJobRunner.js:155-160 | The order of clearing is the registered order from its end: the k-th cleared is the k-th last. |
| FleetSync.Car.UpdateCarStatus | backend/src/services/sql/car/carFleetSql.js:18-49 | Writes status and availability together, and neither for a deleted car. |
| FleetSync.SyncCarStatusFromReservation | backend/src/services/carFleetSyncService.js:14-77 | The branch table as one function of the car's status, the new status and the number of other active reservations; nothing for a missing or deleted car. |
| FleetSync.RentedKept | backend/src/services/carFleetSyncService.js:29-43 | A synced change keeps "rented iff some reservation is out" iff it is not a return while another reservation has the car out. |
| FleetSync.AvailableKept | backend/src/services/carFleetSyncService.js:45-76 | A synced change never leaves a car available with an active booking, refunds included. |
| FleetSync.ReservedKept | backend/src/services/carFleetSyncService.js:45-76 | A synced change keeps "reserved implies some booking" iff it is not a refund of the last booking. |
| FleetSync.AgreementKept | backend/src/services/carFleetSyncService.js:14-77 | A synced change keeps full agreement iff it is neither of those two. |
| FleetSync.ReturnNeedsCleaning | backend/src/services/carFleetSyncService.js:37-43 | A return leaves the car to be cleaned, whatever its status was. |
| FleetSync.BookingAndHandover | backend/src/services/carFleetSyncService.js:29-53 | A handover makes the car rented from any status; a booking reserves an available car and leaves any other as it is. |
| FleetSync.ReleaseIsExact | backend/src/services/carFleetSyncService.js:55-74 | When a reservation is cancelled, missed, expired or completed, a reserved car becomes available iff no reservation of the new table is booked or out, and stays reserved otherwise. |
| FleetSync.OtherChangesLeaveTheCar | backend/src/services/carFleetSyncService.js:45-76 | Payment, review and refund never touch the car, and an ending does not touch a car that is not reserved. |
| FleetSync.ChangeMovesOneRow | backend/src/services/reservation/reservationStatusService.js:123-135 | A synced change moves its own reservation to its status and no other. |
| FleetSync.StaffBookingKept | backend/src/services/sql/reservation/reservationLifecycleRepository.js:242-328 | Inserting a confirmed reservation keeps agreement iff the car is not available. |
| FleetTransactions.ChangesSerialize | backend/src/services/sql/car/carFleetSql.js:56-116 | Concurrent changes under the car row lock leave what some legal serial history leaves. |
| FleetTransactions.LegalLogsHappen | backend/src/services/sql/car/carFleetSql.js:56-116 | The converse: every legal serial history is the log of some run, which leaves what the history leaves. |
| FleetTransactions.CommitWrites | backend/src/services/reservation/reservationStatusService.js:96-154 | A commit writes reservation and car together, computed from the rows it then finds, and is logged; no other statement of a change writes anything. |
| FleetTransactions.NeverStuck | backend/src/services/sql/car/carFleetSql.js:56-116 | From every reachable state all open changes can be committed, and then all of them are in the history. |
| FleetTransactions.AgreementOverLog | backend/src/services/reservation/reservationStatusService.js:96-154 | The car agrees with its reservations after every commit iff no committed event was one of the bad moves. |
| FleetTransactions.CarsAgree | backend/src/services/reservation/reservationStatusService.js:96-154 | In every interleaving without such events the car agrees with its reservations. |
| FleetTransactions.AvailableCarsAreFree | backend/src/services/carFleetSyncService.js:45-76 | In every interleaving, refunds and double returns included, an available car has no active booking unless staff booked an available car. |
| FleetTransactions.RefundLoses | backend/src/services/carFleetSyncService.js:45-76 | A legal history from a free car: booked online, then refunded, and agreement is lost (the car stays reserved). |
| FleetTransactions.ReturnLoses | backend/src/services/carFleetSyncService.js:37-43 | A legal history: two reservations take the car out, one returns it, and agreement is lost. |
| FleetTransactions.StaffBookingLoses | backend/src/services/sql/reservation/reservationLifecycleRepository.js:242-328 | A legal history: staff books the free car, and agreement is lost. |
| FleetTransactions.CancelledCarIsFree | backend/src/services/carFleetSyncService.js:55-74 | A legal history from a free car: booked online, then cancelled, and the car is available again. |
| FleetTransactions.ReturnedCarIsCleaned | backend/src/services/carFleetSyncService.js:29-43 | A legal history from a free car: booked, prepared, taken out and returned, and the car is to be cleaned. |
| HoldCleanup.ReservationTable.ChangeStatus | backend/src/services/reservation/reservationStatusService.js:87-135 | Order of the refusals (missing row, pending refund, illegal transition); accepted, the row has the new status and the given expiry or its old one and every other row is as it was; refused, nothing changes. |
| HoldCleanup.ReservationTable.ReconcileProcessingStripeReservations | backend/src/services/reservationService.js:209-283 | The loop leaves the table and the four counters that its candidates' outcomes determine. |
| HoldCleanup.ReservationTable.ReleaseActiveReservation | backend/src/services/reservationService.js:30-68 | A release after the row may have moved on leaves it cancelled with its time over, and nothing else changed, or reports why the status service refuses. |
| HoldCleanup.AcceptedExactly | backend/src/services/reservation/reservationStatusService.js:96-121 | A change is accepted iff the row is there and has the status already, or may take it and no pending refund forbids it; which refusal is reported otherwise. |
| HoldCleanup.ChangeHappens | backend/src/services/reservation/reservationStatusService.js:123-135 | An accepted change happens to its one row, a refused one to none. |
| HoldCleanup.ExpiredVisitWrites | backend/src/services/reservationService.js:253-262 | A visit counted as an expiry leaves the candidate's row expired as of now, and every other as the others made it. |
| HoldCleanup.FinalizedVisitWrites | backend/src/services/reservationService.js:231-246 | A paid visit leaves the last status of the finalization and the old expiry, and is counted iff that says so. |
| HoldCleanup.OtherVisitsWriteNothing | backend/src/services/reservationService.js:248-280 | Every other visit writes nothing; a visit is counted as kept iff the session is open and unpaid. |
| HoldCleanup.ExpiredStaysInPass | backend/src/services/reservationService.js:220-268 | A candidate counted as expired is expired when its visit ends, and when the pass ends can only have become what an expired one can. |
| HoldCleanup.ExpiredAtTheEnd | backend/src/services/reservationService.js:220-268 | If nobody else touches the table after its visit, it is expired as of now when the pass ends. |
| HoldCleanup.RaceNeverExpires | backend/src/services/reservationService.js:229-268 | The race inside a visit: if others take the row past the holds after the Stripe snapshot and before the status change, neither this visit nor any later one expires it, whatever Stripe said. |
| HoldCleanup.PassNeverExpiresPaid | backend/src/services/reservationService.js:220-268 | The same between visits: a reservation past the holds when a visit begins is not expired from there on. |
| HoldCleanup.ExpiredExactly | backend/src/services/reservationService.js:253-262 | A visit counts an expiry iff the session is expired and unpaid and the row, as others left it, is still a hold without a pending refund or expired already. |
| HoldCleanup.RejectedExactly | backend/src/services/reservationService.js:253-268 | A rejected or failed visit leaves the table as the others made it; a rejection means the row had moved past the holds. |
| HoldCleanup.CountersFit | backend/src/services/reservationService.js:216-282 | expired + finalized + kept never exceeds checked. |
| HoldCleanup.CandidatesAreIndependent | backend/src/services/reservationService.js:220-280 | Change everything the other candidates meet, failures included: a candidate's outcome and row stay the same. |
| HoldTiming.AcceptedExactly | backend/src/config/reservationTiming.js:13-51 | The start-up check accepts exactly the durations under which every session created together with its hold lasts the Stripe minimum, up to the rounding second, and ends before the hold. |
| HoldTiming.ExtendReservationHold | backend/src/services/reservationService.js:71-79 | A refresh is the Refresh step of the timed runs: the hold ends a full window from now, never sooner than before, and still outlasts every session; no reservation, no change. |
| HoldTiming.Booking.CreateCheckoutSession | backend/src/config/reservationTiming.js:49-51 | A new session is the CreateSession step: it ends its minutes from now, less than a second short; created within the slack after the latest refresh, it ends no later than the hold. |
| HoldTiming.SessionLifetime | backend/src/config/reservationTiming.js:49-51 | A session lives less than a second short of its minutes, and in full iff created on a whole second. |
| HoldTiming.LapsedHoldHasNoOpenSession | backend/src/config/reservationTiming.js:13-51 | In every timed run that creates sessions less than the slack after the latest refresh, a lapsed hold means every session has ended. |
| HoldTiming.WindowIsExact | backend/src/config/reservationTiming.js:41-51 | For one session: no wait finds the hold lapsed and the session open iff the whole second of its creation began within the slack. |
| HoldTiming.ShippedTiming | backend/src/config/reservationTiming.js:6-39 | The shipped constants, 30 and 35 minutes, are accepted and leave the five minutes that the timed runs ask for. |
| Migrations.Database.Migrate | backend/sql/migrate.js:42-113 | One call commits the pending files in order up to the first that fails, reports their number or that file, and leaves the lock. |
| Migrations.Database.ApplyFile | backend/sql/migrate.js:81-91 | Effects and ledger row together, or neither. |
| Migrations.Database.ApplySchema | backend/sql/applySchema.js:84-116 | Skipped, and nothing changed, iff the ledger has a row; done, all schema files are in the effects in order; failed, exactly those before the failing one; the ledger is never touched. |
| Migrations.MigrateResult | backend/sql/migrate.js:66-92 | From any consistent database a call ends in a consistent one, ledger and effects longer by the files before the first failing one, in order, and complete iff none of the rest fails; with nothing pending it changes nothing. |
| Migrations.MigrationsAreCrashSafe | backend/sql/migrate.js:56-113 | Any number of containers, crashes and failures: the ledger is a prefix of the list, the migration effects are the ledgered files in order, each once, after every seed; a call that ended well ledgered every file. |
| Migrations.SeedsAreOver | backend/sql/applySchema.js:45-60 | Ledger and effects only grow, and once a migration has committed no step of anybody seeds the schema. |
| Migrations.EndsAreHonest | backend/sql/migrate.js:66-113 | In every run a migrate call ends badly iff one of its files or its connection failed; a seed call also when there are no schema files and nothing is ledgered. |
| Migrations.KindStays | backend/sql/migrate.js:42-113 | A call stays what it was started as, and once over stays as it ended. |
| Migrations.SeedMeans | backend/sql/applySchema.js:45-60 | What a seed reports tells what it ran: nothing, all schema files in order, or those before the first failing one. |
| Migrations.SeedCallsSeed | backend/sql/applySchema.js:84-116 | Any number of containers, crashes and failures: once a seed call has ended well while nothing was ledgered, all schema files stand in the effects in order, then and ever after. |
| Migrations.FreshSeedCompletes | backend/sql/applySchema.js:84-116 | A seed call that finds the lock free and nothing ledgered, and in which no file fails, can end well, and leaves exactly the schema files more. |
| Migrations.AlwaysRecovers | backend/sql/migrate.js:42-113 | Whatever crashes and failures have left behind, one crash of the call in the lock and one new call in which no file fails bring the ledger to the whole list. |
| Migrations.RerunIsNoOp | backend/sql/migrate.js:66-97 | With every file ledgered no step of anybody changes the database. |
| Gregorian.DayFromYearIsFormula | backend/src/services/carFleetAlertReconcileService.js:34-38 | Counting days year by year gives the closed formula of ECMA-262. |
| Gregorian.DaysOrderDates | backend/src/services/carFleetAlertReconcileService.js:34-38 | Dates compare field by field exactly as their day numbers do. |
| Gregorian.CountingDays | e2e/helpers/dates.ts:75-81 | The date with day number n + k is the k-th tomorrow of the date with number n. |
| Gregorian.MonthsBegin | e2e/helpers/dates.ts:73-82 | The day of the year on which each month begins, as ECMA-262 tabulates it, in common and leap years. |
| Gregorian.KnownDays | e2e/helpers/dates.ts:73-82 | The dates of known day numbers: the epoch, a leap day, and the last and the first day of the range of dates. |
| FleetAlerts.BuildDesiredAlerts | backend/src/services/carFleetAlertReconcileService.js:172-189 | The loops give the alerts of the compliance rows and then those of the damage rows, in order. |
| FleetAlerts.ForComplianceContents | backend/src/services/carFleetAlertReconcileService.js:180-184 | An alert is desired for compliance iff some row asks for it. |
| FleetAlerts.TextsCompareAsDays | backend/src/services/carFleetAlertReconcileService.js:71 | On well-formed days the text comparison `expires < today` is the sign of the day difference. |
| FleetAlerts.DateOnlyKeeps | backend/src/services/carFleetAlertReconcileService.js:25-31 | Of a text the first ten characters are kept, of a shorter one all, of an empty one nothing. |
| FleetAlerts.IsoDayIs | backend/src/services/carFleetAlertReconcileService.js:25-31 | A date object of the years 0 to 9999 is read as the text of its UTC date. |
| FleetAlerts.IsoDayExpanded | backend/src/services/carFleetAlertReconcileService.js:25-31 | Of any other year the ten characters hold a sign, six digits of the year, and the month. |
| FleetAlerts.Classified | backend/src/services/carFleetAlertReconcileService.js:25-101 | A tracked row on file, its day given as a text or as a date object, is critical iff its status says so or no days are left, a warning with the exact count iff 0 to 7 are left, otherwise silent; key, date and count of the alert are stated whole. |
| FleetAlerts.DriverDay | backend/src/services/carFleetAlertReconcileService.js:25-31 | A DATE value that arrives as local midnight is read as its own day iff the process runs at or west of Greenwich, and as the day before east of it. |
| FleetAlerts.EastExpiresEarly | backend/src/services/carFleetAlertReconcileService.js:53-82 | East of Greenwich, and only there, a valid paper is critical on the very day its column names. |
| FleetAlerts.ClassifiedWithoutDay | backend/src/services/carFleetAlertReconcileService.js:53-101 | Without a day only the status counts, and the alert is stated whole; untracked items and missing papers never alert. |
| FleetAlerts.SeverityNeverDrops | backend/src/services/carFleetAlertReconcileService.js:53-101 | As the days go by the severity of a row never drops. |
| FleetAlerts.DamageAlerts | backend/src/services/carFleetAlertReconcileService.js:104-121 | Every damage report asks for exactly one warning, on its own car and with its own id. |
| AlertStore.KeyTextsDiffer | backend/src/services/sql/carFleetAlertStoreSqlService.js:42-44 | Two alerts have one key text iff they agree in car, type, source kind and source id. |
| AlertStore.UpsertedKeys | backend/src/services/sql/carFleetAlertStoreSqlService.js:68-107 | An upsert adds exactly its key to the active ones, stores its content and keeps one active alert per key. |
| AlertStore.Store.ResolveMissing | backend/src/services/sql/carFleetAlertStoreSqlService.js:110-139 | Resolves exactly the listed active alerts whose key text is not kept, and counts them. |
| AlertStore.Store.ReconcileFleetAlerts | backend/src/services/carFleetAlertReconcileService.js:195-251 | Table and report for every way the database can answer: failed loads, the first failing upsert, the final resolve, missing tables in each place. |
| AlertStore.ReconcileReachesDesired | backend/src/services/carFleetAlertReconcileService.js:220-250 | When nothing fails, the active keys are exactly the desired ones and those of deleted cars, whatever the store held before. |
| AlertStore.SecondRunIsIdle | backend/src/services/carFleetAlertReconcileService.js:220-250 | A second run with the same desired alerts resolves nothing and changes no alert. |
| AlertStore.DesiredKeysDistinct | backend/src/services/carFleetAlertReconcileService.js:172-189 | With distinct row ids no two desired alerts share a key. |
| AlertStore.RunOutcome | backend/src/services/carFleetAlertReconcileService.js:195-251 | A run that succeeds and was not skipped leaves the desired keys active, and those of deleted cars; if the resolve met a missing table, the old ones too. |
| AlertStore.MissingTableResolvesAll | backend/src/services/carFleetAlertReconcileService.js:195-251 | A run whose compliance load answers with a missing table, and that then succeeds, leaves no compliance alert of a car on file active. |
| AlertStore.FailedLoadStops | backend/src/services/carFleetAlertReconcileService.js:199-212 | A load that fails with anything but a missing table ends the run in that error, the table unchanged. |
| AlertStore.ReportedExactly | backend/src/services/carFleetAlertReconcileService.js:195-251 | Exactly when a run ends in an error, is skipped, or reports its counts, by which load, upsert or resolve fails first and how. |
| AlertStore.GoodRun | backend/src/services/carFleetAlertReconcileService.js:195-251 | A run in which nothing fails leaves the reconciled table and reports as many resolved alerts as it turned from active to resolved. |
| AlertStore.ErrorsResolveNothing | backend/src/services/carFleetAlertReconcileService.js:220-250 | A run that ends in an error or is skipped has resolved nothing. |
| AlertStore.HistoryIsKept | backend/src/services/sql/carFleetAlertStoreSqlService.js:68-139 | What a good run does to each alert of the earlier store: resolved ones stay as they were, desired ones stay active, those of deleted cars stay, any other is resolved with its content kept. |
| AlertStore.TypeTextsAre | backend/src/constants/carEnums.js:82-98 | The stored names of types and source kinds are those that the table allows. |
| CalendarDays.AddSofiaCalendarDays | e2e/helpers/dates.ts:73-82 | Setting the day of the month on the date object gives the specified date, or none for an invalid one. |
| CalendarDays.AddDaysMeans | e2e/helpers/dates.ts:73-82 | What adding days gives for every date and count, two-digit years and the range of dates included. |
| CalendarDays.TwoDigitYearsAre | e2e/helpers/dates.ts:75 | A year from 0 to 99 is counted as one of the twentieth century, any other as itself. |
| CalendarDays.AddDaysComposes | e2e/helpers/dates.ts:73-82 | Adding a and then b days is adding a + b iff the date between has no two-digit year, or both answers are out of range. |
| CalendarDays.AddDaysCounts | e2e/helpers/dates.ts:73-82 | Adding k days is k tomorrows, and adding their negative undoes it. |
| CalendarDays.WeekdayOfPrinted | e2e/helpers/dates.ts:65-154 | A printed date reads back with the weekday of its own day. |
| CalendarDays.NegativeYearsPrint | e2e/helpers/dates.ts:65-67 | A year before 0 prints as a minus before its number, month and day as two digits. |
| CalendarDays.KnownWeekdays | e2e/helpers/dates.ts:150-158 | The epoch was a Thursday, the first of January 2000 a Saturday, and weekdays follow each other round the week. |
| CalendarDays.AllocateOnWeekday | e2e/helpers/dates.ts:160-172 | The loop gives the range, both dates, of the first of the seven candidates on the weekday, or the first candidate of all. |
| CalendarDays.ReturnsAfterNights | e2e/helpers/dates.ts:134-148 | In a zone that shows midnight's own date, a range whose pickup has a four-digit year returns its nights after its pickup. |
| CalendarDays.OtherwiseFromToday | e2e/helpers/dates.ts:134-148 | A pickup date that is no date, or whose year has not four digits, is not read back: the nights count from today. |
| CalendarDays.CandidateInWeek | e2e/helpers/dates.ts:134-154 | Each candidate is the printed date that many days ahead, and is read as that day's weekday. |
| CalendarDays.SearchAlwaysFinds | e2e/helpers/dates.ts:160-172 | For weekdays 0 to 6 the search finds the one date of the week on it and never falls back; for anything else it always falls back. |
| Csv.ParseLine | e2e/helpers/csv.ts:11-39 | The character loop computes the cells of the recursive reader. |
| Csv.ReadInvertsRender | e2e/helpers/csv.ts:11-39 | The reader inverts every rendering of every non-empty list of fields, whatever is quoted. |
| Csv.UnclosedIsRead | e2e/helpers/csv.ts:11-39 | A quoted field that its line does not close is read to the end of the line. |
| Csv.ReadDocument | e2e/helpers/csv.ts:4-52 | Headers and rows of a document, missing cells empty, blank lines dropped. |
| Csv.LineEndings | e2e/helpers/csv.ts:8 | Both line endings give the same lines, a carriage return of the last line is kept, blank lines and a byte order mark are dropped. |
| Csv.TextIsInert | backend/src/modules/analytics/analytics.service.js:285-290 | No exported text reads as a formula, and a text is changed only where it would have. |
| Csv.FormulasBegin | backend/src/modules/analytics/analytics.service.js:285-290 | A text reads as a formula iff, after blanks and control characters alone, one of the four signs stands. |
| Csv.NumbersStay | backend/src/modules/analytics/analytics.service.js:315-321 | A finite number prints as itself, a text in a number column stays iff it is a plain number, and otherwise is treated as text. |
| Csv.PlainNumbersAre | backend/src/modules/analytics/analytics.service.js:319 | A text is a plain number iff it is digits, perhaps a point and more digits, perhaps after a minus. |
| Csv.ExportReadsBack | backend/src/modules/analytics/analytics.service.js:309-327 | An export reads back as what was exported iff no shown text holds a line feed. |
| Csv.ExportedCells | backend/src/modules/analytics/analytics.service.js:309-327 | Under each label stands the text of its own value. |
| Csv.ExportColumnsOk | backend/src/modules/analytics/analytics.service.js:345-356 | The columns of an export, with or without those about money, meet what the round trip asks. |
| Csv.MoneyIsHidden | backend/src/modules/analytics/analytics.service.js:345-356 | A column is exported iff it is not one of the four about money or the caller may see revenue. |
| Csv.AllShowWithMoney | backend/src/modules/analytics/analytics.service.js:345-356 | With the right to see revenue all columns are exported, in their order. |
| SearchParams.CanonicalTimes | front end/src/utils/searchParams.ts:13-30 | A time is left as it stands iff it has the form dd:dd. |
| SearchParams.ToHHMMIdempotent | front end/src/utils/searchParams.ts:13-30 | Normalizing a time twice is normalizing it once. |
| SearchParams.TimesInRange | front end/src/utils/searchParams.ts:19-28 | The result is a time of day iff the trimmed input is not a dd:dd out of range. |
| SearchParams.OutOfRangeTimeAccepted | front end/src/utils/searchParams.ts:19-28 | 99:99 is accepted while 9:99 is refused. |
| SearchParams.TimesKeepTheirMeaning | front end/src/utils/searchParams.ts:13-30 | Hour and minute, read as numbers on both sides of the colon, are those of the input. |
| SearchParams.TimesAccepted | front end/src/utils/searchParams.ts:13-30 | Exactly the trimmed inputs dd:dd, and d:dd with a minute below sixty, are times. |
| SearchParams.NormalizeMeans | front end/src/utils/searchParams.ts:53-63 | Exactly the non-empty codes selected, each once, in the order first selected, basic insurance only without the full one. |
| SearchParams.NormalizeFixpoints | admin-front-end/src/utils/searchParams.ts:44-53 | Normalizing changes nothing iff the list is normal already, and is idempotent. |
| SearchParams.ParseInvertsPrint | front end/src/utils/searchParams.ts:71-127 | Printing then parsing gives the search back, extras normalized, iff every field is given, both times are dd:dd and every kept code can stand in a comma list. |
| SearchParams.ParsePrintParse | admin-front-end/src/utils/searchParams.ts:59-111 | Every URL that parses is stable under print and parse, and never has both insurances. |
| SearchParams.FieldsByName | front end/src/utils/searchParams.ts:100-127 | The parser reads each field under its own key. |
| HtmlEscape.ChainedIsOnePass | backend/src/utils/htmlEscape.js:8-15 | The five replacements in turn equal one substitution per character on every string. |
| HtmlEscape.EntitiesAre | backend/src/utils/htmlEscape.js:8-15 | The five characters become the five entities that HTML reads back as them, and every other stays. |
| HtmlEscape.EscapeAppend | backend/src/utils/htmlEscape.js:8-15 | Escaping a concatenation concatenates the escapes. |
| HtmlEscape.DecodeInvertsEscape | backend/src/utils/htmlEscape.js:8-15 | Decoding undoes escaping. |
| HtmlEscape.EscapeInvertsDecode | backend/src/utils/htmlEscape.js:8-15 | Escaping undoes decoding iff the text has no raw special character and only ampersands that begin an entity. |
| HtmlEscape.EscapeIsSafe | backend/src/utils/htmlEscape.js:8-15 | No markup character survives, escaping is injective, and it changes a text iff that has one of the five characters. |
| HtmlEscape.MailHeaderIsOneLine | backend/src/utils/htmlEscape.js:22-24 | A header holds no line break, escaping it again changes nothing, and only breaks and margins change it. |
| HtmlEscape.BreaksBecomeOneSpace | backend/src/utils/htmlEscape.js:22-24 | A run of line breaks between two texts becomes one space, and the texts stay. |

## Left out

- The exclusion constraint (`backend/sql/schema/011_reservations_active_holds_exclusion.sql`) and the unique index on session holds: absent by design, so that the locks carry the proof; the error paths after a constraint violation are absent with them.
- Holds against booked date blocks and open physical rentals: read by the hold transactions between the overlap test and the write; such a finding only makes the program return, which the model allows there at any time.
- The parameter `excludeSessionId` of hold create and of the overlap query, which no caller sets: not part of this model.
- Merged statements: the reads right after the session lock are one step, and the stale-row update and its selection are one step, as a single SQL statement is.
- Clocks: one clock for all machines and the database; a checkout refresh is assumed to write an expiry later than the clock.
- Whole-row writes of calendar moves and order edits, which write back a status read earlier, and so may take a row where the lifecycle does not lead: not part of this model.
- The batch expiry of abandoned sessions locks reservation rows without the advisory locks; its order of row locks against a rehold is not part of the progress results, which speak of hold transactions and their advisory and row locks.
- HoldProgress.NeverStuck: says that completion stays possible and that each own step makes progress; fairness of the database scheduler is not modelled.
- Unlock queries are taken to succeed in `LockRetry` and `SessionLocks`.
- Callers of `SessionLocks` do not die while holding a lock; a lost connection frees its locks in PostgreSQL.
- The interior of finalization is a path of legal status changes and a verdict; refund operations are a flag that the status service reads.
- Listeners, history rows, calendar sync and soft deletion of orders beside a status change: not part of this model.
- FleetSync.SyncCarStatusFromReservation: one car; a reservation that is moved to another car is not followed. Staff setting the car status by hand is left out.
- LockRetry.DelayRange: delays over the reals; a double next to one may round a delay up to the end of its window, which `LockRetry.WaitingWithRounding` allows for.
- FleetTransactions.CarsAgree: the pending-refund gate is absent, which only adds runs.
- Migrations: SQL of the files is a name; a file that fails leaves nothing behind, and a seed file outside a transaction is taken as one effect.
- FleetAlerts.Classified: days of the years 0 to 9999; what the date parser makes of a malformed text is an arbitrary function. Alert messages and car names are left out.
- AlertStore.ReconcileReachesDesired: no other writer of the alert table and no soft deletion of a car between the loads and the resolve.
- CalendarDays.AllocateOnWeekday: the ways of allocating a range are a function of the days ahead, on a fixed clock; the time zone is a function from dates to dates, applied to midnight.
- CalendarDays.WeekdayOfPrinted: years from 100 on; text fields that are not digits count as not a number.
- Csv.ExportReadsBack: at least two columns with plain labels, as every export has; the printed form of a finite number is given.
- SearchParams.ParseInvertsPrint: query parameters as key and value pairs; percent-encoding belongs to the browser. Strings are sequences of characters, not of UTF-16 units.
- checkCarAvailabilityForRange, the search page queries, pricing, RBAC, notifications, the Stripe client, HTTP and user interface: not part of this model.
