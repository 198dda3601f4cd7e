/**
 * Concurrent status changes of one car's reservations. Each runs in a transaction: lock and write the
 * reservation row, lock the car row and compute its status from the committed rows, commit both.
 * Inserting a reservation needs the car row too (foreign key), so it waits while a sync holds it.
 */
module FleetTransactions {
  import opened Results
  import opened ReservationStatus
  import opened FleetSync

  datatype Phase = Wrote | CarLocked(next: CarStatus) | Ended

  datatype Txn = Txn(id: nat, to: Status, phase: Phase)

  datatype Event = Changed(id: nat, to: Status) | Held(id: nat) | StaffBooked(id: nat)

  datatype State = State(fleet: Fleet, carLock: Option<nat>, txns: seq<Txn>, log: seq<Event>)

  datatype Step =
    | Begin(id: nat, to: Status)
    | Sync(t: nat)
    | Commit(t: nat)
    | Abort(t: nat)
    | InsertHold(id: nat)
    | InsertConfirmed(id: nat)

  predicate Live(x: Txn) { x.phase != Ended }

  predicate Enabled(s: State, step: Step) {
    match step
    case Begin(id, to) =>
      ChangeAllowed(s.fleet, id, to) && forall u :: 0 <= u < |s.txns| && Live(s.txns[u]) ==> s.txns[u].id != id
    case Sync(t) => t < |s.txns| && s.txns[t].phase == Wrote && s.carLock == None
    case Commit(t) => t < |s.txns| && s.txns[t].phase.CarLocked?
    case Abort(t) => t < |s.txns| && Live(s.txns[t])
    case InsertHold(id) => id !in s.fleet.rows && s.carLock == None
    case InsertConfirmed(id) => id !in s.fleet.rows && s.carLock == None
  }

  function Apply(s: State, step: Step): State
    requires Enabled(s, step)
  {
    match step
    case Begin(id, to) => s.(txns := s.txns + [Txn(id, to, Wrote)])
    case Sync(t) =>
      var x := s.txns[t];
      var next := Synced(s.fleet.car, x.to, |OthersActive(s.fleet.rows, x.id)|);
      s.(txns := s.txns[t := x.(phase := CarLocked(next))], carLock := Some(t))
    case Commit(t) =>
      var x := s.txns[t];
      State(Fleet(x.phase.next, s.fleet.rows[x.id := x.to]), None, s.txns[t := x.(phase := Ended)],
            s.log + [Changed(x.id, x.to)])
    case Abort(t) =>
      s.(txns := s.txns[t := s.txns[t].(phase := Ended)], carLock := if s.carLock == Some(t) then None else s.carLock)
    case InsertHold(id) =>
      s.(fleet := s.fleet.(rows := s.fleet.rows[id := PendingPayment]), log := s.log + [Held(id)])
    case InsertConfirmed(id) =>
      s.(fleet := s.fleet.(rows := s.fleet.rows[id := Confirmed]), log := s.log + [StaffBooked(id)])
  }

  ghost predicate Run(s: State, steps: seq<Step>, s': State)
    decreases |steps|
  {
    if steps == [] then s == s'
    else Enabled(s, steps[0]) && Run(Apply(s, steps[0]), steps[1..], s')
  }

  // ---------- Serial histories ----------

  function Do(f: Fleet, e: Event): Fleet {
    match e
    case Changed(id, to) => Change(f, id, to)
    case Held(id) => f.(rows := f.rows[id := PendingPayment])
    case StaffBooked(id) => f.(rows := f.rows[id := Confirmed])
  }

  predicate Legal(f: Fleet, e: Event) {
    match e
    case Changed(id, to) => ChangeAllowed(f, id, to)
    case Held(id) => id !in f.rows
    case StaffBooked(id) => id !in f.rows
  }

  function Replay(f: Fleet, log: seq<Event>): Fleet {
    if log == [] then f else Do(Replay(f, log[..|log| - 1]), log[|log| - 1])
  }

  ghost predicate LegalLog(f: Fleet, log: seq<Event>) {
    forall k :: 0 <= k < |log| ==> Legal(Replay(f, log[..k]), log[k])
  }

  /** Row locks are exclusive, and the one transaction with the car lock computed from the current rows. */
  ghost predicate Inv(start: Fleet, s: State) {
    && s.fleet == Replay(start, s.log) && LegalLog(start, s.log)
    && (forall t :: 0 <= t < |s.txns| && Live(s.txns[t]) ==> ChangeAllowed(s.fleet, s.txns[t].id, s.txns[t].to))
    && (forall t, u :: 0 <= t < u < |s.txns| && Live(s.txns[t]) && Live(s.txns[u]) ==> s.txns[t].id != s.txns[u].id)
    && (forall t :: 0 <= t < |s.txns| && s.txns[t].phase.CarLocked? ==>
          && s.carLock == Some(t)
          && s.txns[t].phase.next == Synced(s.fleet.car, s.txns[t].to, |OthersActive(s.fleet.rows, s.txns[t].id)|))
  }

  lemma Append(start: Fleet, log: seq<Event>, e: Event)
    requires LegalLog(start, log) && Legal(Replay(start, log), e)
    ensures LegalLog(start, log + [e]) && Replay(start, log + [e]) == Do(Replay(start, log), e)
  {
    var log' := log + [e];
    assert log'[..|log|] == log;
    forall k | 0 <= k < |log'| ensures Legal(Replay(start, log'[..k]), log'[k]) {
      assert k < |log| ==> log'[..k] == log[..k];
    }
  }

  lemma CommitKeepsInv(start: Fleet, s: State, t: nat)
    requires Inv(start, s) && Enabled(s, Commit(t))
    ensures Inv(start, Apply(s, Commit(t)))
  {
    Append(start, s.log, Changed(s.txns[t].id, s.txns[t].to));
  }

  lemma InsertKeepsInv(start: Fleet, s: State, step: Step)
    requires Inv(start, s) && Enabled(s, step) && (step.InsertHold? || step.InsertConfirmed?)
    ensures Inv(start, Apply(s, step))
  {
    Append(start, s.log, if step.InsertHold? then Held(step.id) else StaffBooked(step.id));
  }

  lemma UncommittedKeepsInv(start: Fleet, s: State, step: Step)
    requires Inv(start, s) && Enabled(s, step) && (step.Begin? || step.Sync? || step.Abort?)
    ensures Inv(start, Apply(s, step))
  {
  }

  lemma StepKeepsInv(start: Fleet, s: State, step: Step)
    requires Inv(start, s) && Enabled(s, step)
    ensures Inv(start, Apply(s, step))
  {
    if step.Commit? {
      CommitKeepsInv(start, s, step.t);
    } else if step.InsertHold? || step.InsertConfirmed? {
      InsertKeepsInv(start, s, step);
    } else {
      UncommittedKeepsInv(start, s, step);
    }
  }

  lemma {:induction false} RunKeepsInv(start: Fleet, s: State, steps: seq<Step>, s': State)
    requires Inv(start, s) && Run(s, steps, s')
    ensures Inv(start, s')
    decreases |steps|
  {
    if steps != [] {
      StepKeepsInv(start, s, steps[0]);
      RunKeepsInv(start, Apply(s, steps[0]), steps[1..], s');
    }
  }

  /** Concurrent changes are as good as serial ones: the committed database is the replay of a legal log. */
  lemma ChangesSerialize(start: Fleet, steps: seq<Step>, s: State)
    requires Run(State(start, None, [], []), steps, s)
    ensures LegalLog(start, s.log) && s.fleet == Replay(start, s.log)
  {
    RunKeepsInv(start, State(start, None, [], []), steps, s);
  }

  // ---------- Agreement over whole runs ----------

  ghost predicate Bad(f: Fleet, e: Event) {
    match e
    case Changed(id, to) => ReturnWhileOut(f, id, to) || RefundOfLastBooking(f, id, to)
    case Held(_) => false
    case StaffBooked(_) => f.car == Available
  }

  lemma EventKeepsAgreement(f: Fleet, e: Event)
    requires Agrees(f) && Legal(f, e)
    ensures Agrees(Do(f, e)) <==> !Bad(f, e)
  {
    match e
    case Changed(id, to) => AgreementKept(f, id, to);
    case Held(id) => HoldKept(f, id);
    case StaffBooked(id) => StaffBookingKept(f, id);
  }

  lemma ReplayStep(start: Fleet, log: seq<Event>, k: nat)
    requires k < |log|
    ensures Replay(start, log[..k + 1]) == Do(Replay(start, log[..k]), log[k])
  {
    assert log[..k + 1][..k] == log[..k];
  }

  lemma {:induction false} AgreesAt(start: Fleet, log: seq<Event>, k: nat)
    requires Agrees(start) && LegalLog(start, log) && k <= |log|
    requires forall j :: 0 <= j < |log| ==> !Bad(Replay(start, log[..j]), log[j])
    ensures Agrees(Replay(start, log[..k]))
  {
    if k > 0 {
      AgreesAt(start, log, k - 1);
      ReplayStep(start, log, k - 1);
      EventKeepsAgreement(Replay(start, log[..k - 1]), log[k - 1]);
    }
  }

  /** The car agrees with its reservations after every commit iff no committed event was a bad one. */
  lemma AgreementOverLog(start: Fleet, log: seq<Event>)
    requires Agrees(start) && LegalLog(start, log)
    ensures (forall k :: 0 <= k <= |log| ==> Agrees(Replay(start, log[..k])))
       <==> (forall k :: 0 <= k < |log| ==> !Bad(Replay(start, log[..k]), log[k]))
  {
    if forall k :: 0 <= k < |log| ==> !Bad(Replay(start, log[..k]), log[k]) {
      forall k | 0 <= k <= |log| ensures Agrees(Replay(start, log[..k])) { AgreesAt(start, log, k); }
    } else {
      var k :| 0 <= k < |log| && Bad(Replay(start, log[..k]), log[k]);
      ReplayStep(start, log, k);
      if Agrees(Replay(start, log[..k])) {
        EventKeepsAgreement(Replay(start, log[..k]), log[k]);
        assert !Agrees(Replay(start, log[..k + 1]));
      }
    }
  }

  /**
   * A car that starts in agreement agrees with its reservations at every commit of every interleaving
   * in which nobody returns a car another reservation has out, refunds the last booking of a reserved
   * car, or books an available car by hand.
   */
  lemma CarsAgree(start: Fleet, steps: seq<Step>, s: State)
    requires Agrees(start) && Run(State(start, None, [], []), steps, s)
    ensures (forall k :: 0 <= k < |s.log| ==> !Bad(Replay(start, s.log[..k]), s.log[k])) ==> Agrees(s.fleet)
  {
    ChangesSerialize(start, steps, s);
    AgreementOverLog(start, s.log);
    assert s.log[..|s.log|] == s.log;
  }

  /** An available car has no active booking at any commit, refunds and double returns included. */
  lemma {:induction false} AvailableOverLog(start: Fleet, log: seq<Event>)
    requires AvailableSound(start) && LegalLog(start, log)
    requires forall k :: 0 <= k < |log| && log[k].StaffBooked? ==> Replay(start, log[..k]).car != Available
    ensures AvailableSound(Replay(start, log))
  {
    if log != [] {
      var init, last := log[..|log| - 1], log[|log| - 1];
      forall k | 0 <= k < |init|
        ensures Legal(Replay(start, init[..k]), init[k])
        ensures init[k].StaffBooked? ==> Replay(start, init[..k]).car != Available
      {
        assert log[..k] == init[..k] && init[k] == log[k];
        assert Legal(Replay(start, log[..k]), log[k]);
      }
      AvailableOverLog(start, init);
      assert Legal(Replay(start, log[..|log| - 1]), last);
      var f := Replay(start, init);
      match last
      case Changed(id, to) => AvailableKept(f, id, to);
      case Held(id) => HoldKept(f, id);
      case StaffBooked(id) => assert Replay(start, log[..|init|]).car != Available;
    }
  }

  lemma AvailableCarsAreFree(start: Fleet, steps: seq<Step>, s: State)
    requires AvailableSound(start) && Run(State(start, None, [], []), steps, s)
    requires forall k :: 0 <= k < |s.log| && s.log[k].StaffBooked? ==> Replay(start, s.log[..k]).car != Available
    ensures s.fleet.car == Available ==> forall i :: i in s.fleet.rows ==> !FleetActive(s.fleet.rows[i])
  {
    ChangesSerialize(start, steps, s);
    AvailableOverLog(start, s.log);
  }

  // ---------- The three bad moves happen ----------

  /** An available car with no reservations. */
  const FREE: Fleet := Fleet(Available, map[])

  /** A legal history of the free car that leads to a fleet. */
  ghost predicate Leads(log: seq<Event>, f: Fleet) {
    LegalLog(FREE, log) && Replay(FREE, log) == f
  }

  /** One last event of a legal history loses agreement. */
  ghost predicate Loses(log: seq<Event>, e: Event) {
    && LegalLog(FREE, log + [e]) && Agrees(Replay(FREE, log)) && Bad(Replay(FREE, log), e)
    && !Agrees(Replay(FREE, log + [e]))
  }

  lemma Grows(log: seq<Event>, f: Fleet, e: Event, g: Fleet)
    requires Leads(log, f) && Legal(f, e) && Do(f, e) == g
    ensures Leads(log + [e], g)
  {
    Append(FREE, log, e);
  }

  lemma LosesBy(log: seq<Event>, f: Fleet, e: Event)
    requires Leads(log, f) && Legal(f, e) && Agrees(f) && Bad(f, e)
    ensures Loses(log, e)
  {
    Append(FREE, log, e);
    EventKeepsAgreement(f, e);
  }

  /** Booked and paid online. */
  const BOOKED: seq<Event> :=
    (([Held(0)] + [Changed(0, ProcessingPayment)]) + [Changed(0, Paid)]) + [Changed(0, Confirmed)]

  lemma BookedOnline()
    ensures Leads(BOOKED, Fleet(Reserved, map[0 := Confirmed]))
  {
    assert Leads([], FREE);
    Grows([], FREE, Held(0), Fleet(Available, map[0 := PendingPayment]));
    assert [] + [Held(0)] == [Held(0)];
    var log1 := [Held(0)];
    Grows(log1, Fleet(Available, map[0 := PendingPayment]), Changed(0, ProcessingPayment), Fleet(Available, map[0 := ProcessingPayment]));
    var log2 := log1 + [Changed(0, ProcessingPayment)];
    Grows(log2, Fleet(Available, map[0 := ProcessingPayment]), Changed(0, Paid), Fleet(Available, map[0 := Paid]));
    var log3 := log2 + [Changed(0, Paid)];
    Grows(log3, Fleet(Available, map[0 := Paid]), Changed(0, Confirmed), Fleet(Reserved, map[0 := Confirmed]));
  }

  lemma Concrete(f: Fleet, id: nat)
    requires id in f.rows
    ensures Physical(f.rows[id]) ==> SomePhysical(f.rows)
    ensures Booked(f.rows[id]) ==> SomeBooked(f.rows)
  {
  }

  /** A refund of the last booking leaves the car reserved for nobody. */
  lemma RefundLoses()
    ensures Loses(BOOKED, Changed(0, Refunded))
  {
    BookedOnline();
    var f := Fleet(Reserved, map[0 := Confirmed]);
    Concrete(f, 0);
    LosesBy(BOOKED, f, Changed(0, Refunded));
  }

  /** A staff booking leaves an available car booked. */
  lemma StaffBookingLoses()
    ensures Loses([], StaffBooked(0))
  {
    LosesBy([], FREE, StaffBooked(0));
  }

  /** A second booking by staff while the car is reserved. */
  const SHARED: seq<Event> := BOOKED + [StaffBooked(1)]

  lemma Shared()
    ensures Leads(SHARED, Fleet(Reserved, map[0 := Confirmed, 1 := Confirmed]))
  {
    BookedOnline();
    Grows(BOOKED, Fleet(Reserved, map[0 := Confirmed]), StaffBooked(1), Fleet(Reserved, map[0 := Confirmed, 1 := Confirmed]));
  }

  /** The first guest takes the car out. */
  const FIRST_OUT: seq<Event> := (SHARED + [Changed(0, CarPrepared)]) + [Changed(0, PickedUp)]

  lemma FirstOut()
    ensures Leads(FIRST_OUT, Fleet(Rented, map[0 := PickedUp, 1 := Confirmed]))
  {
    Shared();
    var f := Fleet(Reserved, map[0 := CarPrepared, 1 := Confirmed]);
    Grows(SHARED, Fleet(Reserved, map[0 := Confirmed, 1 := Confirmed]), Changed(0, CarPrepared), f);
    Grows(SHARED + [Changed(0, CarPrepared)], f, Changed(0, PickedUp), Fleet(Rented, map[0 := PickedUp, 1 := Confirmed]));
  }

  /** The second reservation is taken out as well: nothing in the lifecycle forbids it. */
  const BOTH_OUT: seq<Event> := (FIRST_OUT + [Changed(1, CarPrepared)]) + [Changed(1, PickedUp)]

  lemma BothOut()
    ensures Leads(BOTH_OUT, Fleet(Rented, map[0 := PickedUp, 1 := PickedUp]))
  {
    FirstOut();
    var f := Fleet(Rented, map[0 := PickedUp, 1 := CarPrepared]);
    Grows(FIRST_OUT, Fleet(Rented, map[0 := PickedUp, 1 := Confirmed]), Changed(1, CarPrepared), f);
    Grows(FIRST_OUT + [Changed(1, CarPrepared)], f, Changed(1, PickedUp), Fleet(Rented, map[0 := PickedUp, 1 := PickedUp]));
  }

  /** A return leaves the car waiting for cleaning while the other reservation has it out. */
  lemma ReturnLoses()
    ensures Loses(BOTH_OUT, Changed(0, Returned))
  {
    BothOut();
    var f := Fleet(Rented, map[0 := PickedUp, 1 := PickedUp]);
    Concrete(f, 1);
    LosesBy(BOTH_OUT, f, Changed(0, Returned));
  }

  // ---------- Good histories ----------

  /** Booked online and cancelled: the car is available again. */
  lemma CancelledCarIsFree()
    ensures Leads(BOOKED + [Changed(0, Cancelled)], Fleet(Available, map[0 := Cancelled]))
  {
    BookedOnline();
    var f := Fleet(Reserved, map[0 := Confirmed]);
    ReleaseIsExact(f, 0, Cancelled);
    Grows(BOOKED, f, Changed(0, Cancelled), Fleet(Available, map[0 := Cancelled]));
  }

  /** Taken out. */
  const TAKEN_OUT: seq<Event> := (BOOKED + [Changed(0, CarPrepared)]) + [Changed(0, PickedUp)]

  lemma TakenOut()
    ensures Leads(TAKEN_OUT, Fleet(Rented, map[0 := PickedUp]))
  {
    BookedOnline();
    var f := Fleet(Reserved, map[0 := CarPrepared]);
    Grows(BOOKED, Fleet(Reserved, map[0 := Confirmed]), Changed(0, CarPrepared), f);
    Grows(BOOKED + [Changed(0, CarPrepared)], f, Changed(0, PickedUp), Fleet(Rented, map[0 := PickedUp]));
  }

  /** Booked online, taken out and returned: the car is to be cleaned. */
  lemma ReturnedCarIsCleaned()
    ensures Leads(TAKEN_OUT + [Changed(0, Returned)], Fleet(NeedsCleaning, map[0 := Returned]))
  {
    TakenOut();
    Grows(TAKEN_OUT, Fleet(Rented, map[0 := PickedUp]), Changed(0, Returned), Fleet(NeedsCleaning, map[0 := Returned]));
  }

  // ---------- Commits happen, and every legal history does ----------

  /** A commit writes the reservation and the car together, by the rows it finds; an insert writes its row; nothing else writes. */
  lemma CommitWrites(start: Fleet, s: State, step: Step)
    requires Inv(start, s) && Enabled(s, step)
    ensures var s' := Apply(s, step);
            match step {
              case Commit(t) =>
                var x := s.txns[t];
                && s'.fleet == Change(s.fleet, x.id, x.to) && s'.fleet.rows[x.id] == x.to
                && s'.log == s.log + [Changed(x.id, x.to)] && s'.carLock == None && !Live(s'.txns[t])
              case InsertHold(id) => s'.fleet == Fleet(s.fleet.car, s.fleet.rows[id := PendingPayment]) && s'.log == s.log + [Held(id)]
              case InsertConfirmed(id) => s'.fleet == Fleet(s.fleet.car, s.fleet.rows[id := Confirmed]) && s'.log == s.log + [StaffBooked(id)]
              case _ => s'.fleet == s.fleet && s'.log == s.log
            }
  {
  }

  /** Every transaction has committed or given up, and the car row is free. */
  predicate Quiet(s: State) {
    s.carLock == None && forall t :: 0 <= t < |s.txns| ==> !Live(s.txns[t])
  }

  ghost predicate Reaches(s: State, s': State) {
    exists steps :: Run(s, steps, s')
  }

  lemma {:induction false} RunThen(s: State, a: seq<Step>, s1: State, b: seq<Step>, s2: State)
    requires Run(s, a, s1) && Run(s1, b, s2)
    ensures Run(s, a + b, s2)
    decreases |a|
  {
    if a == [] {
      assert a + b == b;
    } else {
      RunThen(Apply(s, a[0]), a[1..], s1, b, s2);
      assert (a + b)[0] == a[0] && (a + b)[1..] == a[1..] + b;
    }
  }

  lemma ReachesThen(s: State, s1: State, s2: State)
    requires Reaches(s, s1) && Reaches(s1, s2)
    ensures Reaches(s, s2)
  {
    var a :| Run(s, a, s1);
    var b :| Run(s1, b, s2);
    RunThen(s, a, s1, b, s2);
  }

  lemma ReachesNext(s: State, s1: State, step: Step)
    requires Reaches(s, s1) && Enabled(s1, step)
    ensures Reaches(s, Apply(s1, step))
  {
    assert [step][1..] == [] && Run(Apply(s1, step), [], Apply(s1, step));
    assert Run(s1, [step], Apply(s1, step));
    ReachesThen(s, s1, Apply(s1, step));
  }

  /** One more legal event can happen when nothing else is going on. */
  lemma EventHappens(s0: State, s: State, e: Event) returns (s': State)
    requires Reaches(s0, s) && Quiet(s) && Legal(s.fleet, e)
    ensures Reaches(s0, s') && Quiet(s') && s'.log == s.log + [e] && s'.fleet == Do(s.fleet, e)
  {
    match e
    case Held(id) =>
      ReachesNext(s0, s, InsertHold(id));
      s' := Apply(s, InsertHold(id));
    case StaffBooked(id) =>
      ReachesNext(s0, s, InsertConfirmed(id));
      s' := Apply(s, InsertConfirmed(id));
    case Changed(id, to) =>
      var t := |s.txns|;
      var s1 := Apply(s, Begin(id, to));
      ReachesNext(s0, s, Begin(id, to));
      var s2 := Apply(s1, Sync(t));
      ReachesNext(s0, s1, Sync(t));
      s' := Apply(s2, Commit(t));
      ReachesNext(s0, s2, Commit(t));
  }

  /** The converse of serialization: every legal history is the log of some run. */
  lemma {:induction false} LegalLogsHappen(start: Fleet, log: seq<Event>)
    requires LegalLog(start, log)
    ensures exists s :: Reaches(State(start, None, [], []), s) && Quiet(s) && s.log == log && s.fleet == Replay(start, log)
  {
    var s0 := State(start, None, [], []);
    if log == [] {
      assert Run(s0, [], s0);
      assert Reaches(s0, s0) && Quiet(s0);
    } else {
      var init, last := log[..|log| - 1], log[|log| - 1];
      forall k | 0 <= k < |init| ensures Legal(Replay(start, init[..k]), init[k]) {
        assert log[..k] == init[..k] && Legal(Replay(start, log[..k]), log[k]);
      }
      LegalLogsHappen(start, init);
      var s :| Reaches(s0, s) && Quiet(s) && s.log == init && s.fleet == Replay(start, init);
      assert Legal(Replay(start, log[..|log| - 1]), last);
      var s' := EventHappens(s0, s, last);
      assert init + [last] == log;
    }
  }

  // ---------- Nobody is stuck ----------

  /** The car row is locked by an unfinished transaction, if by any. */
  predicate LockHasHolder(s: State) {
    s.carLock.Some? ==> s.carLock.value < |s.txns| && s.txns[s.carLock.value].phase.CarLocked?
  }

  lemma {:induction false} RunKeepsHolder(s: State, steps: seq<Step>, s': State)
    requires LockHasHolder(s) && Run(s, steps, s')
    ensures LockHasHolder(s')
    decreases |steps|
  {
    if steps != [] { RunKeepsHolder(Apply(s, steps[0]), steps[1..], s'); }
  }

  /** How many statements are left. */
  function Left(txns: seq<Txn>): nat {
    if txns == [] then 0
    else Left(txns[..|txns| - 1]) + match txns[|txns| - 1].phase { case Wrote => 2 case CarLocked(_) => 1 case Ended => 0 }
  }

  lemma {:induction false} LeftFalls(txns: seq<Txn>, t: nat, x: Txn)
    requires t < |txns| && Live(txns[t]) && x.phase != Wrote && (txns[t].phase.CarLocked? ==> x.phase == Ended)
    ensures Left(txns[t := x]) < Left(txns)
  {
    var n := |txns| - 1;
    if t < n {
      assert txns[t := x][..n] == txns[..n][t := x];
      LeftFalls(txns[..n], t, x);
    } else {
      assert txns[t := x][..n] == txns[..n];
    }
  }

  /** What was open in s is in the history of s'. */
  predicate Committed(s: State, s': State) {
    s.log <= s'.log && forall t :: 0 <= t < |s.txns| && Live(s.txns[t]) ==> Changed(s.txns[t].id, s.txns[t].to) in s'.log
  }

  /** The transaction with the car row commits; when the row is free, any that waits for it goes on. */
  lemma NextStep(s: State) returns (step: Step)
    requires LockHasHolder(s) && !Quiet(s)
    ensures (step.Sync? || step.Commit?) && Enabled(s, step) && LockHasHolder(Apply(s, step))
    ensures Left(Apply(s, step).txns) < Left(s.txns)
    ensures forall s' :: Committed(Apply(s, step), s') ==> Committed(s, s')
  {
    if s.carLock.Some? {
      step := Commit(s.carLock.value);
    } else {
      var t: nat :| t < |s.txns| && Live(s.txns[t]);
      step := if s.txns[t].phase == Wrote then Sync(t) else Commit(t);
    }
    var s1 := Apply(s, step);
    LeftFalls(s.txns, step.t, s1.txns[step.t]);
    forall s' | Committed(s1, s') ensures Committed(s, s') {
      StillOpen(s, step, s');
    }
  }

  lemma StillOpen(s: State, step: Step, s': State)
    requires (step.Sync? || step.Commit?) && Enabled(s, step) && Committed(Apply(s, step), s')
    ensures Committed(s, s')
  {
    var s1 := Apply(s, step);
    forall t | 0 <= t < |s.txns| && Live(s.txns[t]) ensures Changed(s.txns[t].id, s.txns[t].to) in s'.log {
      if t == step.t && step.Commit? {
        assert s1.log[|s.log|] == s'.log[|s.log|];
      } else {
        assert Live(s1.txns[t]);
      }
    }
  }

  lemma {:induction false} AllCanCommit(s: State)
    requires LockHasHolder(s)
    ensures exists s' :: Reaches(s, s') && Quiet(s') && Committed(s, s')
    decreases Left(s.txns)
  {
    assert Run(s, [], s);
    assert Reaches(s, s);
    if !Quiet(s) {
      var step := NextStep(s);
      var s1 := Apply(s, step);
      ReachesNext(s, s, step);
      AllCanCommit(s1);
      var s' :| Reaches(s1, s') && Quiet(s') && Committed(s1, s');
      ReachesThen(s, s1, s');
    }
  }

  /** From every reachable state all open changes can be committed, and then are in the history. */
  lemma NeverStuck(start: Fleet, steps: seq<Step>, s: State)
    requires Run(State(start, None, [], []), steps, s)
    ensures exists s' :: Reaches(s, s') && Quiet(s') && Committed(s, s')
  {
    RunKeepsHolder(State(start, None, [], []), steps, s);
    AllCanCommit(s);
  }
}
