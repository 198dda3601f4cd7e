/** Reservation lifecycle: the 14 statuses, the transition table and the runs it admits. */
module ReservationStatus {
  import opened Results

  datatype Status =
    | PendingPayment | ProcessingPayment | Paid | Confirmed | CarPrepared | PickedUp
    | ActiveRental | Returned | Completed | Cancelled | NoShow | Expired | ManualReview | Refunded

  // A status as callers pass it: a string that may be none of the known ones.
  datatype RawStatus = Known(status: Status) | Unknown(text: string)

  predicate IsHold(s: Status) {
    s == PendingPayment || s == ProcessingPayment
  }

  predicate IsTerminal(s: Status) {
    s in {Completed, Cancelled, Expired, NoShow, Refunded}
  }

  predicate IsOpsLifecycle(s: Status) {
    s in {Confirmed, CarPrepared, PickedUp, ActiveRental, Returned, Completed}
  }

  function Transitions(s: Status): set<Status> {
    match s
    case PendingPayment => {ProcessingPayment, Expired, Cancelled}
    case ProcessingPayment => {Paid, PendingPayment, Expired, Cancelled, ManualReview}
    case Paid => {Confirmed, ManualReview, Refunded, Cancelled}
    case ManualReview => {Confirmed, Refunded, Cancelled}
    case Confirmed => {CarPrepared, Cancelled, NoShow, Refunded}
    case CarPrepared => {PickedUp, Cancelled, NoShow, Refunded}
    case PickedUp => {ActiveRental, Returned}
    case ActiveRental => {Returned}
    case Returned => {Completed}
    case Cancelled => {ManualReview}
    case Expired => {Paid, ManualReview}
    case Completed => {}
    case NoShow => {}
    case Refunded => {}
  }

  predicate Edge(a: Status, b: Status) {
    b in Transitions(a)
  }

  /** A status change on an existing row: a table edge or the idempotent no-op. */
  predicate Allowed(a: Status, b: Status) {
    a == b || Edge(a, b)
  }

  predicate CanTransition(from: Option<RawStatus>, to: RawStatus) {
    match from
    case None => to == Known(PendingPayment) || to == Known(Confirmed)
    case Some(raw) => raw.Known? && to.Known? && Allowed(raw.status, to.status)
  }

  datatype TransitionError = InvalidStatusTransition(from: Option<RawStatus>, to: RawStatus)

  function AssertTransition(from: Option<RawStatus>, to: RawStatus): Result<(), TransitionError> {
    if from == Some(to) then Ok(())
    else if !CanTransition(from, to) then Err(InvalidStatusTransition(from, to))
    else Ok(())
  }

  /** The check and the throwing guard disagree exactly on an unknown status kept as it is. */
  lemma GuardVersusCheck(from: Option<RawStatus>, to: RawStatus)
    ensures (AssertTransition(from, to).Ok? <==> CanTransition(from, to))
       <==> !(from == Some(to) && to.Unknown?)
  {
  }

  // ---------- Runs ----------

  /** A run of status-changing transitions; `run[0]` is the status it starts from. */
  ghost predicate IsRun(run: seq<Status>) {
    |run| > 0 && forall i :: 0 <= i < |run| - 1 ==> Edge(run[i], run[i + 1])
  }

  /** How often the run takes the edge a -> b. */
  ghost function Uses(run: seq<Status>, a: Status, b: Status): nat {
    if |run| < 2 then 0
    else (if run[0] == a && run[1] == b then 1 else 0) + Uses(run[1..], a, b)
  }

  /** Returns to pending_payment, and cancelled bookings reopened for review. */
  ghost function Retries(run: seq<Status>): nat { Uses(run, ProcessingPayment, PendingPayment) }
  ghost function Reopenings(run: seq<Status>): nat { Uses(run, Cancelled, ManualReview) }

  ghost function Potential(s: Status): nat {
    match s
    case PendingPayment => 10
    case ProcessingPayment => 9
    case Expired => 8
    case Paid => 7
    case ManualReview => 6
    case Confirmed => 5
    case CarPrepared => 4
    case PickedUp => 3
    case Cancelled => 3
    case ActiveRental => 2
    case Returned => 1
    case Completed => 0
    case NoShow => 0
    case Refunded => 0
  }

  lemma TailIsRun(run: seq<Status>)
    requires IsRun(run) && |run| > 1
    ensures IsRun(run[1..]) && Edge(run[0], run[1])
  {
    forall i | 0 <= i < |run| - 2 ensures Edge(run[1..][i], run[1..][i + 1]) {
      assert Edge(run[i + 1], run[i + 2]);
    }
  }

  /** Every run is linear in its retries and reopenings, whatever status it starts from. */
  lemma {:induction false} RunLength(run: seq<Status>)
    requires IsRun(run)
    ensures |run| - 1 <= Potential(run[0]) - Potential(run[|run| - 1]) + 2 * Retries(run) + 4 * Reopenings(run)
    ensures |run| - 1 <= 10 + 2 * Retries(run) + 4 * Reopenings(run)
  {
    if |run| > 1 {
      var rest := run[1..];
      TailIsRun(run);
      RunLength(rest);
      assert Edge(run[0], run[1]);
    }
  }

  ghost function LongTail(reopenings: nat): seq<Status> {
    if reopenings == 0 then [Confirmed, CarPrepared, PickedUp, ActiveRental, Returned, Completed]
    else [Confirmed, CarPrepared, Cancelled, ManualReview] + LongTail(reopenings - 1)
  }

  ghost function LongRun(retries: nat, reopenings: nat): seq<Status> {
    if retries == 0 then [PendingPayment, ProcessingPayment, Expired, Paid, ManualReview] + LongTail(reopenings)
    else [PendingPayment, ProcessingPayment] + LongRun(retries - 1, reopenings)
  }

  lemma Prepend(s: Status, run: seq<Status>)
    requires IsRun(run) && Edge(s, run[0])
    ensures IsRun([s] + run) && ([s] + run)[0] == s && |[s] + run| == |run| + 1
    ensures Retries([s] + run) == Retries(run) + (if s == ProcessingPayment && run[0] == PendingPayment then 1 else 0)
    ensures Reopenings([s] + run) == Reopenings(run) + (if s == Cancelled && run[0] == ManualReview then 1 else 0)
  {
    var longer := [s] + run;
    assert longer[1..] == run;
    forall i | 0 <= i < |longer| - 1 ensures Edge(longer[i], longer[i + 1]) {
      if i > 0 { assert Edge(run[i - 1], run[i]); }
    }
  }

  lemma Ending()
    ensures var t := [Confirmed, CarPrepared, PickedUp, ActiveRental, Returned, Completed];
            IsRun(t) && Retries(t) == 0 && Reopenings(t) == 0
  {
    Prepend(Returned, [Completed]);
    Prepend(ActiveRental, [Returned, Completed]);
    Prepend(PickedUp, [ActiveRental, Returned, Completed]);
    Prepend(CarPrepared, [PickedUp, ActiveRental, Returned, Completed]);
    Prepend(Confirmed, [CarPrepared, PickedUp, ActiveRental, Returned, Completed]);
    assert [Confirmed] + [CarPrepared, PickedUp, ActiveRental, Returned, Completed]
        == [Confirmed, CarPrepared, PickedUp, ActiveRental, Returned, Completed];
  }

  lemma ReopenedOnce(t: seq<Status>)
    requires IsRun(t) && t[0] == Confirmed
    ensures var run := [Confirmed, CarPrepared, Cancelled, ManualReview] + t;
            && IsRun(run) && run[0] == Confirmed && |run| == |t| + 4
            && Retries(run) == Retries(t) && Reopenings(run) == Reopenings(t) + 1
  {
    Prepend(ManualReview, t);
    var cancelled := [Cancelled] + ([ManualReview] + t);
    Prepend(Cancelled, [ManualReview] + t);
    Prepend(CarPrepared, cancelled);
    Prepend(Confirmed, [CarPrepared] + cancelled);
    assert [Confirmed, CarPrepared, Cancelled, ManualReview] + t == [Confirmed] + ([CarPrepared] + cancelled);
  }

  lemma {:induction false} LongTailRun(c: nat)
    ensures IsRun(LongTail(c)) && LongTail(c)[0] == Confirmed && |LongTail(c)| == 6 + 4 * c
    ensures Retries(LongTail(c)) == 0 && Reopenings(LongTail(c)) == c
  {
    if c == 0 {
      Ending();
    } else {
      LongTailRun(c - 1);
      ReopenedOnce(LongTail(c - 1));
    }
  }

  lemma LongBeginning(t: seq<Status>)
    requires IsRun(t) && t[0] == Confirmed
    ensures var run := [PendingPayment, ProcessingPayment, Expired, Paid, ManualReview] + t;
            && IsRun(run) && run[0] == PendingPayment && |run| == |t| + 5
            && Retries(run) == Retries(t) && Reopenings(run) == Reopenings(t)
  {
    Prepend(ManualReview, t);
    var paid := [Paid] + ([ManualReview] + t);
    Prepend(Paid, [ManualReview] + t);
    Prepend(Expired, paid);
    Prepend(ProcessingPayment, [Expired] + paid);
    Prepend(PendingPayment, [ProcessingPayment] + ([Expired] + paid));
    assert [PendingPayment, ProcessingPayment, Expired, Paid, ManualReview] + t
        == [PendingPayment] + ([ProcessingPayment] + ([Expired] + paid));
  }

  /** The bound of RunLength is attained for every number of retries and reopenings. */
  lemma {:induction false} RunLengthIsTight(r: nat, c: nat)
    ensures IsRun(LongRun(r, c)) && LongRun(r, c)[0] == PendingPayment
    ensures Retries(LongRun(r, c)) == r && Reopenings(LongRun(r, c)) == c
    ensures |LongRun(r, c)| - 1 == 10 + 2 * r + 4 * c
  {
    if r == 0 {
      LongTailRun(c);
      LongBeginning(LongTail(c));
    } else {
      RunLengthIsTight(r - 1, c);
      var t := LongRun(r - 1, c);
      Prepend(ProcessingPayment, t);
      Prepend(PendingPayment, [ProcessingPayment] + t);
      assert LongRun(r, c) == [PendingPayment] + ([ProcessingPayment] + t);
    }
  }

  // ---------- Safety over whole runs ----------

  /** A run that has left the holds never blocks the calendar as a hold again. */
  lemma {:induction false} HoldsAreNeverReentered(run: seq<Status>, i: nat, j: nat)
    requires IsRun(run) && i <= j < |run| && !IsHold(run[i])
    ensures !IsHold(run[j])
  {
    if i < j {
      HoldsAreNeverReentered(run, i, j - 1);
      assert Edge(run[j - 1], run[j]);
    }
  }

  /** Money received is never silently expired. */
  lemma PaidIsNeverExpired(run: seq<Status>, i: nat, j: nat)
    requires IsRun(run) && i <= j < |run| && run[i] == Paid
    ensures run[j] != Expired
  {
    if i < j {
      HoldsAreNeverReentered(run, i, j - 1);
      assert Edge(run[j - 1], run[j]);
    }
  }

  /** A run of a newly created row: it starts as a payment hold or as a staff booking. */
  ghost predicate IsNewRowRun(run: seq<Status>) {
    IsRun(run) && CanTransition(None, Known(run[0]))
  }

  /** The key leaves only after confirmation and preparation, in that order, with nothing between. */
  lemma PickupFollowsPreparation(run: seq<Status>, i: nat)
    requires IsNewRowRun(run) && i < |run| && run[i] == PickedUp
    ensures 2 <= i && run[i - 1] == CarPrepared && run[i - 2] == Confirmed
  {
    assert i > 0 && Edge(run[i - 1], run[i]);
    assert i > 1 && Edge(run[i - 2], run[i - 1]);
  }

  /** An online booking becomes operational only through received money or a human decision. */
  lemma {:induction false} OperationalOnlyAfterPaidOrReview(run: seq<Status>, j: nat)
    requires IsRun(run) && run[0] == PendingPayment && j < |run| && IsOpsLifecycle(run[j])
    ensures exists i :: 0 <= i < j && (run[i] == Paid || run[i] == ManualReview)
  {
    assert j > 0 && Edge(run[j - 1], run[j]);
    if IsOpsLifecycle(run[j - 1]) {
      OperationalOnlyAfterPaidOrReview(run, j - 1);
    }
  }

  // ---------- Exact reachability ----------

  ghost predicate Connected(a: Status, b: Status) {
    exists run :: IsRun(run) && run[0] == a && run[|run| - 1] == b
  }

  const AFTER_REVIEW: set<Status> :=
    {ManualReview, Confirmed, CarPrepared, Cancelled, PickedUp, ActiveRental, Returned, Completed, NoShow, Refunded}

  /** What a reservation in status s can still become. */
  function Future(s: Status): set<Status> {
    match s
    case PendingPayment => AFTER_REVIEW + {Paid, Expired, ProcessingPayment, PendingPayment}
    case ProcessingPayment => AFTER_REVIEW + {Paid, Expired, ProcessingPayment, PendingPayment}
    case Expired => AFTER_REVIEW + {Paid, Expired}
    case Paid => AFTER_REVIEW + {Paid}
    case ManualReview => AFTER_REVIEW
    case Confirmed => AFTER_REVIEW
    case CarPrepared => AFTER_REVIEW
    case Cancelled => AFTER_REVIEW
    case PickedUp => {PickedUp, ActiveRental, Returned, Completed}
    case ActiveRental => {ActiveRental, Returned, Completed}
    case Returned => {Returned, Completed}
    case Completed => {Completed}
    case NoShow => {NoShow}
    case Refunded => {Refunded}
  }

  lemma {:induction false} RunsStayInFuture(run: seq<Status>)
    requires IsRun(run)
    ensures run[|run| - 1] in Future(run[0])
  {
    if |run| > 1 {
      var rest := run[1..];
      TailIsRun(run);
      RunsStayInFuture(rest);
      assert Edge(run[0], run[1]);
      assert Future(run[1]) <= Future(run[0]);
    }
  }

  lemma ConnectedTransitive(a: Status, b: Status, c: Status)
    requires Connected(a, b) && Connected(b, c)
    ensures Connected(a, c)
  {
    var p :| IsRun(p) && p[0] == a && p[|p| - 1] == b;
    var q :| IsRun(q) && q[0] == b && q[|q| - 1] == c;
    var joined := p + q[1..];
    forall i | 0 <= i < |joined| - 1 ensures Edge(joined[i], joined[i + 1]) {
      if i < |p| - 1 {
        assert Edge(p[i], p[i + 1]);
      } else {
        assert joined[i] == q[i - |p| + 1] && joined[i + 1] == q[i - |p| + 2];
      }
    }
    assert joined[|joined| - 1] == c;
  }

  lemma ConnectedByEdge(a: Status, b: Status)
    requires Allowed(a, b)
    ensures Connected(a, b)
  {
    var run := if a == b then [a] else [a, b];
    assert IsRun(run) && run[0] == a && run[|run| - 1] == b;
  }

  const MAIN_LINE: seq<Status> :=
    [PendingPayment, ProcessingPayment, Expired, Paid, ManualReview, Confirmed, CarPrepared,
     PickedUp, ActiveRental, Returned, Completed]

  predicate OnMainLine(s: Status) {
    s !in {Cancelled, NoShow, Refunded}
  }

  function Place(s: Status): (k: nat)
    requires OnMainLine(s)
    ensures k < |MAIN_LINE| && MAIN_LINE[k] == s
  {
    match s
    case PendingPayment => 0
    case ProcessingPayment => 1
    case Expired => 2
    case Paid => 3
    case ManualReview => 4
    case Confirmed => 5
    case CarPrepared => 6
    case PickedUp => 7
    case ActiveRental => 8
    case Returned => 9
    case Completed => 10
  }

  lemma ConnectedOnMainLine(i: nat, j: nat)
    requires i <= j < |MAIN_LINE|
    ensures Connected(MAIN_LINE[i], MAIN_LINE[j])
    decreases j - i
  {
    ConnectedByEdge(MAIN_LINE[i], MAIN_LINE[i]);
    if i < j {
      assert Edge(MAIN_LINE[i], MAIN_LINE[i + 1]);
      ConnectedByEdge(MAIN_LINE[i], MAIN_LINE[i + 1]);
      ConnectedOnMainLine(i + 1, j);
      ConnectedTransitive(MAIN_LINE[i], MAIN_LINE[i + 1], MAIN_LINE[j]);
    }
  }

  /** A prepared booking can still reach everything a reviewed one can. */
  lemma ConnectedFromPrepared(t: Status)
    requires t in AFTER_REVIEW
    ensures Connected(CarPrepared, t)
  {
    if Allowed(CarPrepared, t) {
      ConnectedByEdge(CarPrepared, t);
    } else {
      ConnectedByEdge(CarPrepared, Cancelled);
      ConnectedByEdge(Cancelled, ManualReview);
      ConnectedTransitive(CarPrepared, Cancelled, ManualReview);
      ConnectedOnMainLine(Place(ManualReview), Place(t));
      ConnectedTransitive(CarPrepared, ManualReview, t);
    }
  }

  lemma FutureIsConnected(s: Status, t: Status)
    requires t in Future(s)
    ensures Connected(s, t)
  {
    ConnectedByEdge(s, s);
    if s == Cancelled && t != Cancelled {
      ConnectedByEdge(Cancelled, ManualReview);
      FutureIsConnectedOnLine(ManualReview, t);
      ConnectedTransitive(Cancelled, ManualReview, t);
    } else if s != t {
      FutureIsConnectedOnLine(s, t);
    }
  }

  lemma FutureIsConnectedOnLine(s: Status, t: Status)
    requires t in Future(s) && OnMainLine(s)
    ensures Connected(s, t)
  {
    if OnMainLine(t) && Place(s) <= Place(t) {
      ConnectedOnMainLine(Place(s), Place(t));
    } else if s == ProcessingPayment && t == PendingPayment {
      ConnectedByEdge(s, t);
    } else {
      ConnectedOnMainLine(Place(s), Place(CarPrepared));
      ConnectedFromPrepared(t);
      ConnectedTransitive(s, CarPrepared, t);
    }
  }

  /** The table of futures is exactly the set of statuses some run reaches. */
  lemma FutureIsExact(s: Status, t: Status)
    ensures t in Future(s) <==> Connected(s, t)
  {
    if t in Future(s) {
      FutureIsConnected(s, t);
    }
    if Connected(s, t) {
      var run :| IsRun(run) && run[0] == s && run[|run| - 1] == t;
      RunsStayInFuture(run);
    }
  }

  /** Of the statuses listed as terminal, exactly cancelled and expired can come back to life. */
  lemma TerminalIsNotAbsorbing(s: Status)
    requires IsTerminal(s)
    ensures (forall t :: Connected(s, t) ==> t == s) <==> s != Cancelled && s != Expired
    ensures Connected(s, Completed) <==> s in {Completed, Cancelled, Expired}
  {
    forall t ensures t in Future(s) <==> Connected(s, t) { FutureIsExact(s, t); }
    assert Completed in AFTER_REVIEW;
    if s == Cancelled || s == Expired {
      assert Connected(s, Completed);
    }
  }

  // ---------- Single steps ----------

  /** From where each ending may come in one step; a refund exactly where the refund policy allows one. */
  lemma EndingsComeFrom(s: Status)
    ensures Edge(s, Cancelled) <==> s in {PendingPayment, ProcessingPayment, Paid, ManualReview, Confirmed, CarPrepared}
    ensures Edge(s, NoShow) <==> s == Confirmed || s == CarPrepared
    ensures Edge(s, Refunded) <==> s in {Paid, ManualReview, Confirmed, CarPrepared}
    ensures Edge(s, Expired) <==> IsHold(s)
    ensures Edge(s, Completed) <==> s == Returned
  {
  }

  /** From where each step of a booking may come: payment, review, confirmation, and the rental itself. */
  lemma BookingStepsComeFrom(s: Status)
    ensures Edge(s, PendingPayment) <==> s == ProcessingPayment
    ensures Edge(s, ProcessingPayment) <==> s == PendingPayment
    ensures Edge(s, Paid) <==> s == ProcessingPayment || s == Expired
    ensures Edge(s, ManualReview) <==> s in {ProcessingPayment, Paid, Cancelled, Expired}
    ensures Edge(s, Confirmed) <==> s == Paid || s == ManualReview
    ensures Edge(s, CarPrepared) <==> s == Confirmed
    ensures Edge(s, PickedUp) <==> s == CarPrepared
    ensures Edge(s, ActiveRental) <==> s == PickedUp
    ensures Edge(s, Returned) <==> s == PickedUp || s == ActiveRental
  {
  }

  /** A guest can give a booking up in one step iff the car is not out and the booking has not ended. */
  lemma CancellableExactly(s: Status)
    ensures Edge(s, Cancelled) <==> IsHold(s) || (Connected(s, PickedUp) && s !in {Cancelled, Expired, PickedUp})
  {
    FutureIsExact(s, PickedUp);
    assert PickedUp in AFTER_REVIEW;
  }

  /** A new row is a payment hold or a staff booking; another row, known, may stay or take an edge; a refusal names both. */
  lemma CheckMeans(from: Option<RawStatus>, raw: RawStatus, to: RawStatus)
    ensures CanTransition(None, to) <==> to == Known(PendingPayment) || to == Known(Confirmed)
    ensures CanTransition(Some(raw), to) <==>
              raw.Known? && to.Known? && (to.status == raw.status || Edge(raw.status, to.status))
    ensures AssertTransition(from, to).Err? ==> AssertTransition(from, to).error == InvalidStatusTransition(from, to)
  {
  }
}
