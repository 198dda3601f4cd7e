/**
 * Progress of the hold protocol: the canonical lock order excludes deadlock, row locks never make one
 * hold transaction wait for another, and every transaction needs finitely many steps of its own.
 */
module HoldProgress {
  import opened Results
  import opened ReservationStatus
  import opened LockOrder
  import opened HoldProtocol
  import opened HoldSafety

  predicate Unfinished(s: State, t: nat) {
    t < |s.txns| && s.txns[t].phase != Done
  }

  /** A step of a transaction's own program, failures apart. */
  predicate OwnStep(step: Step) {
    !step.Begin? && !step.Rollback? && !step.Lifecycle? && !step.InsertConfirmed? && !step.Tick?
  }

  /** The advisory lock a transaction is about to take, if it is at such a point. */
  predicate AtLock(x: Txn) {
    x.phase == Begun || (x.phase == Locking && x.taken < |x.cars|)
  }

  function Wanted(h: string -> int, x: Txn): LockKey
    requires AtLock(x)
  {
    if x.phase == Begun then SessionKey(h(x.req.session)) else CarKey(x.cars[x.taken])
  }

  function Height(key: LockKey): int {
    match key
    case SessionKey(_) => 0
    case CarKey(car) => car
  }

  ghost predicate Waiting(h: string -> int, s: State, t: nat) {
    t < |s.txns| && AtLock(s.txns[t]) && !LockFree(s, Wanted(h, s.txns[t]), t)
  }

  /** A waiting transaction wants a lock above every lock it holds. */
  lemma WantsAboveHeld(h: string -> int, x: Txn, rows: Table, clock: int, key: LockKey)
    requires TxnOk(x, rows, clock) && AtLock(x) && KeyOf(h, x, key)
    ensures Height(key) < Height(Wanted(h, x))
  {
    var wanted := x.cars[x.taken];
    assert wanted in x.cars;
    if key.CarKey? {
      var i :| 0 <= i < x.taken && x.cars[i] == key.car;
    }
  }

  lemma Highest(h: string -> int, s: State, n: nat) returns (t: nat)
    requires n <= |s.txns| && exists u :: 0 <= u < n && AtLock(s.txns[u])
    ensures t < n && AtLock(s.txns[t])
    ensures forall u :: 0 <= u < n && AtLock(s.txns[u]) ==> Height(Wanted(h, s.txns[u])) <= Height(Wanted(h, s.txns[t]))
  {
    if exists u :: 0 <= u < n - 1 && AtLock(s.txns[u]) {
      t := Highest(h, s, n - 1);
      if AtLock(s.txns[n - 1]) && Height(Wanted(h, s.txns[t])) < Height(Wanted(h, s.txns[n - 1])) {
        t := n - 1;
      }
    } else {
      t := n - 1;
    }
  }

  /** Somebody who is not waiting exists whenever somebody is unfinished. */
  lemma SomeoneIsFree(h: string -> int, s: State, some: nat) returns (t: nat)
    requires Inv(h, s) && Unfinished(s, some)
    ensures Unfinished(s, t) && !Waiting(h, s, t)
  {
    t := some;
    if Waiting(h, s, some) {
      var top := Highest(h, s, |s.txns|);
      t := top;
      if Waiting(h, s, top) {
        var key := Wanted(h, s.txns[top]);
        t := s.locks[key];
        assert KeyOf(h, s.txns[t], key);
        if Waiting(h, s, t) {
          WantsAboveHeld(h, s.txns[t], s.rows, s.clock, key);
          assert false;
        }
      }
    }
  }

  // ---------- Row locks ----------

  /** The row a rehold peeked at, and will lock, stands on a car it has asked for and was no stale hold when it began. */
  ghost predicate PeekOk(x: Txn, rows: Table) {
    x.req.kind == Rehold && (x.phase == Locking || x.phase == SessionSwept) && x.peeked.Some? ==>
      var id := x.peeked.value;
      && id in rows && rows[id].session == x.req.session && rows[id].car in x.cars
      && !Stale(rows[id], x.req.now) && (id in x.writes ==> !Stale(x.writes[id], x.req.now))
  }

  /** The row it has locked stays pending in its own eyes until it is moved; only a rehold has an old car. */
  ghost predicate LockedOk(x: Txn) {
    && (x.phase == OldCarSwept ==> x.req.kind == Rehold)
    && (x.req.kind == Rehold && Reached(x.phase, Targeted) ==>
          && x.target.Some? && x.target.value in x.writes
          && x.writes[x.target.value].status == PendingPayment && !Stale(x.writes[x.target.value], x.req.now))
  }

  ghost predicate PeekInv(s: State) {
    forall t :: 0 <= t < |s.txns| ==> PeekOk(s.txns[t], s.rows) && LockedOk(s.txns[t])
  }

  /** A commit moves no row of a session that another transaction has locked. */
  lemma CommitKeepsPlace(h: string -> int, s: State, t: nat, u: nat, id: nat)
    requires Inv(h, s) && t < |s.txns| && u < |s.txns| && t != u && s.txns[t].phase != Done
    requires Live(s.txns[u].phase) && id in s.rows && s.rows[id].session == s.txns[u].req.session
    ensures id in View(s, t) && SamePlace(View(s, t)[id], s.rows[id])
    ensures View(s, t)[id] == s.rows[id] || View(s, t)[id].status == Status.Expired
  {
    var x := s.txns[t];
    assert TxnOk(x, s.rows, s.clock);
    if id in x.writes {
      assert WriteOk(x, s.rows, id);
      if x.phase == Written && x.target == Some(id) { Apart(h, s, t, u); }
    }
  }

  lemma CommitKeepsPeek(h: string -> int, s: State, t: nat)
    requires Inv(h, s) && PeekInv(s) && Enabled(h, s, Finish(t))
    ensures PeekInv(Apply(h, s, Finish(t)))
  {
    var s' := Apply(h, s, Finish(t));
    forall u | 0 <= u < |s'.txns| ensures PeekOk(s'.txns[u], s'.rows) && LockedOk(s'.txns[u]) {
      var y := s.txns[u];
      assert PeekOk(y, s.rows) && LockedOk(y);
      if u != t && y.req.kind == Rehold && (y.phase == Locking || y.phase == SessionSwept) && y.peeked.Some? {
        CommitKeepsPlace(h, s, t, u, y.peeked.value);
      }
    }
  }

  /** A step in which t only changes its own record. */
  lemma RecordKeepsPeek(s: State, s': State, t: nat)
    requires PeekInv(s) && t < |s.txns| && s'.rows == s.rows && |s'.txns| == |s.txns|
    requires forall u :: 0 <= u < |s.txns| && u != t ==> s'.txns[u] == s.txns[u]
    requires PeekOk(s'.txns[t], s.rows) && LockedOk(s'.txns[t])
    ensures PeekInv(s')
  {
    forall u | 0 <= u < |s'.txns| ensures PeekOk(s'.txns[u], s'.rows) && LockedOk(s'.txns[u]) {
      if u != t { assert PeekOk(s.txns[u], s.rows) && LockedOk(s.txns[u]); }
    }
  }

  lemma ReadKeepsPeek(h: string -> int, s: State, step: Step)
    requires Inv(h, s) && PeekInv(s) && Enabled(h, s, step) && step.ReadHolds?
    ensures PeekInv(Apply(h, s, step))
  {
    ReadHoldsKeepsInv(h, s, step.t, step.peek, step.raw);
    assert TxnOk(s.txns[step.t], s.rows, s.clock);
    var s' := Apply(h, s, step);
    assert TxnOk(s'.txns[step.t], s'.rows, s'.clock);
    RecordKeepsPeek(s, s', step.t);
  }

  lemma SweptKeepsPeek(x: Txn, rows: Table, ids: set<nat>, phase: Phase)
    requires PeekOk(x, rows) && LockedOk(x) && SweepPhase(x, phase) && ids <= (rows + x.writes).Keys
    requires forall id :: id in ids ==> Stale((rows + x.writes)[id], x.req.now)
    requires phase == OldCarSwept ==> x.req.kind == Rehold
    requires phase != SessionSwept ==> Reached(x.phase, Targeted)
    ensures PeekOk(Swept(x, rows + x.writes, ids, phase), rows) && LockedOk(Swept(x, rows + x.writes, ids, phase))
  {
  }

  lemma SweepSessionKeepsPeek(h: string -> int, s: State, t: nat)
    requires Inv(h, s) && PeekInv(s) && Enabled(h, s, SweepSession(t))
    ensures PeekInv(Apply(h, s, SweepSession(t)))
  {
    var x, view := s.txns[t], View(s, t);
    var ids := StaleOfSession(view, x.req.session, x.req.now);
    assert TxnOk(x, s.rows, s.clock);
    SweptKeepsPeek(x, s.rows, ids, SessionSwept);
    RecordKeepsPeek(s, Put(s, t, Swept(x, view, ids, SessionSwept)), t);
  }

  lemma CarSweepKeepsPeek(h: string -> int, s: State, t: nat, car: int, phase: Phase)
    requires Inv(h, s) && PeekInv(s) && t < |s.txns| && SweepPhase(s.txns[t], phase) && phase != SessionSwept
    requires Reached(s.txns[t].phase, Targeted) && (phase == OldCarSwept ==> s.txns[t].req.kind == Rehold)
    ensures PeekInv(Put(s, t, Swept(s.txns[t], View(s, t), StaleOfCar(View(s, t), car, s.txns[t].req.now), phase)))
  {
    var x, view := s.txns[t], View(s, t);
    var ids := StaleOfCar(view, car, x.req.now);
    SweptKeepsPeek(x, s.rows, ids, phase);
    RecordKeepsPeek(s, Put(s, t, Swept(x, view, ids, phase)), t);
  }

  lemma SweepOldCarKeepsPeek(h: string -> int, s: State, t: nat)
    requires Inv(h, s) && PeekInv(s) && Enabled(h, s, SweepOldCar(t)) && s.txns[t].taken == |s.txns[t].cars|
    ensures PeekInv(Apply(h, s, SweepOldCar(t)))
  {
    CarSweepKeepsPeek(h, s, t, View(s, t)[s.txns[t].target.value].car, OldCarSwept);
  }

  lemma SweepCarKeepsPeek(h: string -> int, s: State, t: nat)
    requires Inv(h, s) && PeekInv(s) && Enabled(h, s, SweepCar(t)) && s.txns[t].taken == |s.txns[t].cars|
    ensures PeekInv(Apply(h, s, SweepCar(t)))
  {
    CarSweepKeepsPeek(h, s, t, s.txns[t].req.car, CarSwept);
  }

  lemma ChooseKeepsPeek(h: string -> int, s: State, t: nat)
    requires Inv(h, s) && PeekInv(s) && Enabled(h, s, ChooseTarget(t))
    ensures PeekInv(Apply(h, s, ChooseTarget(t)))
  {
    var x := s.txns[t];
    assert PeekOk(x, s.rows) && LockedOk(x);
    RecordKeepsPeek(s, Put(s, t, Chosen(x, View(s, t))), t);
  }

  lemma WriteKeepsPeek(h: string -> int, s: State, t: nat)
    requires Inv(h, s) && PeekInv(s) && Enabled(h, s, Write(t))
    ensures PeekInv(Apply(h, s, Write(t)))
  {
    var x := s.txns[t];
    assert TxnOk(x, s.rows, s.clock) && LockedOk(x);
    RecordKeepsPeek(s, Apply(h, s, Write(t)), t);
  }

  lemma OwnRecordKeepsPeek(h: string -> int, s: State, step: Step)
    requires PeekInv(s) && Enabled(h, s, step)
    requires step.LockSession? || step.LockCar? || step.CheckOverlap? || step.Rollback?
    ensures PeekInv(Apply(h, s, step))
  {
    assert PeekOk(s.txns[step.t], s.rows) && LockedOk(s.txns[step.t]);
    RecordKeepsPeek(s, Apply(h, s, step), step.t);
  }

  lemma LifecycleKeepsPeek(h: string -> int, s: State, id: nat, to: Status, newExpiry: int)
    requires Inv(h, s) && PeekInv(s) && Enabled(h, s, Lifecycle(id, to, newExpiry))
    ensures PeekInv(Apply(h, s, Lifecycle(id, to, newExpiry)))
  {
    var s' := Apply(h, s, Lifecycle(id, to, newExpiry));
    assert IsHold(to) ==> IsHold(s.rows[id].status);
    forall u | 0 <= u < |s'.txns| ensures PeekOk(s'.txns[u], s'.rows) && LockedOk(s'.txns[u]) {
      assert PeekOk(s.txns[u], s.rows) && LockedOk(s.txns[u]) && TxnOk(s.txns[u], s.rows, s.clock);
    }
  }

  lemma OutsideKeepsPeek(h: string -> int, s: State, step: Step)
    requires Inv(h, s) && PeekInv(s) && Enabled(h, s, step) && (step.Begin? || step.InsertConfirmed? || step.Tick?)
    ensures PeekInv(Apply(h, s, step))
  {
    var s' := Apply(h, s, step);
    forall u | 0 <= u < |s'.txns| ensures PeekOk(s'.txns[u], s'.rows) && LockedOk(s'.txns[u]) {
      if u < |s.txns| { assert PeekOk(s.txns[u], s.rows) && LockedOk(s.txns[u]); }
    }
  }

  lemma OwnStepKeepsPeek(h: string -> int, s: State, step: Step)
    requires Inv(h, s) && PeekInv(s) && Enabled(h, s, step) && OwnStep(step)
    ensures PeekInv(Apply(h, s, step))
  {
    assert TxnOk(s.txns[step.t], s.rows, s.clock);
    match step {
      case Finish(t) => CommitKeepsPeek(h, s, t);
      case ReadHolds(_, _, _) => ReadKeepsPeek(h, s, step);
      case SweepSession(t) => SweepSessionKeepsPeek(h, s, t);
      case SweepOldCar(t) => SweepOldCarKeepsPeek(h, s, t);
      case SweepCar(t) => SweepCarKeepsPeek(h, s, t);
      case ChooseTarget(t) => ChooseKeepsPeek(h, s, t);
      case Write(t) => WriteKeepsPeek(h, s, t);
      case _ => OwnRecordKeepsPeek(h, s, step);
    }
  }

  lemma StepKeepsPeek(h: string -> int, s: State, step: Step)
    requires Inv(h, s) && PeekInv(s) && Enabled(h, s, step)
    ensures PeekInv(Apply(h, s, step))
  {
    if OwnStep(step) {
      OwnStepKeepsPeek(h, s, step);
    } else if step.Rollback? {
      OwnRecordKeepsPeek(h, s, step);
    } else if step.Lifecycle? {
      LifecycleKeepsPeek(h, s, step.id, step.to, step.newExpiry);
    } else {
      OutsideKeepsPeek(h, s, step);
    }
  }

  lemma {:induction false} RunKeepsPeek(h: string -> int, s: State, steps: seq<Step>, s': State)
    requires Inv(h, s) && PeekInv(s) && Run(h, s, steps, s')
    ensures Inv(h, s') && PeekInv(s')
    decreases |steps|
  {
    if steps != [] {
      StepKeepsInv(h, s, steps[0]);
      StepKeepsPeek(h, s, steps[0]);
      RunKeepsPeek(h, Apply(h, s, steps[0]), steps[1..], s');
    }
  }

  /** Once its car locks are taken, no row that a transaction sweeps, locks or writes is row-locked by another. */
  lemma RowLocksAreFree(h: string -> int, s: State, t: nat)
    requires Inv(h, s) && t < |s.txns| && Reached(s.txns[t].phase, Locking) && s.txns[t].taken == |s.txns[t].cars|
    ensures forall id :: id in s.rows && s.rows[id].car in s.txns[t].cars ==> RowFree(s, id, t)
    ensures forall id :: id in s.rows && s.rows[id].session == s.txns[t].req.session && IsHold(s.rows[id].status) ==>
              RowFree(s, id, t)
    ensures forall id :: id in s.txns[t].writes ==> RowFree(s, id, t)
    ensures PeekInv(s) && s.txns[t].req.kind == Rehold && s.txns[t].phase == SessionSwept && s.txns[t].peeked.Some? ==>
              s.txns[t].peeked.value in s.rows && RowFree(s, s.txns[t].peeked.value, t)
  {
    assert TxnOk(s.txns[t], s.rows, s.clock);
    forall id | id in s.rows && s.rows[id].car in s.txns[t].cars ensures RowFree(s, id, t) {
      CarRowsFree(h, s, t, id);
    }
    if PeekInv(s) { assert PeekOk(s.txns[t], s.rows); }
  }

  lemma SweepSessionReady(h: string -> int, s: State, t: nat)
    requires Inv(h, s) && t < |s.txns| && s.txns[t].phase == Locking && s.txns[t].taken == |s.txns[t].cars|
    ensures Enabled(h, s, SweepSession(t))
  {
    RowLocksAreFree(h, s, t);
    assert TxnOk(s.txns[t], s.rows, s.clock);
    forall id | id in StaleOfSession(View(s, t), s.txns[t].req.session, s.txns[t].req.now) ensures RowFree(s, id, t) {}
  }

  /** Sweeping the cars never waits either. */
  lemma SweepCarReady(h: string -> int, s: State, t: nat)
    requires Inv(h, s) && t < |s.txns|
    ensures s.txns[t].phase == Targeted ==> Enabled(h, s, if s.txns[t].req.kind == Create then SweepCar(t) else SweepOldCar(t))
    ensures s.txns[t].phase == OldCarSwept && s.txns[t].req.kind == Rehold ==> Enabled(h, s, SweepCar(t))
  {
    var x := s.txns[t];
    assert TxnOk(x, s.rows, s.clock);
    if Reached(x.phase, Targeted) {
      RowLocksAreFree(h, s, t);
      forall id | id in x.writes ensures WriteOk(x, s.rows, id) {}
      forall car, id | car in x.cars && id in StaleOfCar(View(s, t), car, x.req.now) ensures RowFree(s, id, t) {}
    }
  }

  /**
   * The choice of a target never waits either: under its row lock the program either goes on with the row
   * or, for a create, without one, or it returns.
   */
  lemma ChooseTargetReady(h: string -> int, s: State, t: nat)
    requires Inv(h, s) && PeekInv(s) && t < |s.txns| && s.txns[t].phase == SessionSwept
    ensures Enabled(h, s, ChooseTarget(t)) <==> !Enabled(h, s, Finish(t))
  {
    assert TxnOk(s.txns[t], s.rows, s.clock);
    RowLocksAreFree(h, s, t);
  }

  lemma CheckReady(h: string -> int, s: State, t: nat)
    requires t < |s.txns| && s.txns[t].phase == CarSwept
    ensures Enabled(h, s, CheckOverlap(t)) <==> !Enabled(h, s, Finish(t))
  {
  }

  /** The update of a rehold always finds its row still pending; an open rental or a booked range may make it return instead. */
  lemma WriteReady(h: string -> int, s: State, t: nat)
    requires PeekInv(s) && t < |s.txns| && s.txns[t].phase == Cleared
    ensures Enabled(h, s, Write(t)) && Enabled(h, s, Finish(t))
  {
    assert LockedOk(s.txns[t]);
  }

  lemma {:induction false} Listed(cars: set<int>) returns (raw: seq<RawId>)
    ensures forall c: int :: Whole(c) in raw <==> c in cars
    decreases cars
  {
    if c :| c in cars {
      var rest := Listed(cars - {c});
      raw := [Whole(c)] + rest;
    } else {
      raw := [];
    }
  }

  lemma InvolvedList(rows: Table, q: Request) returns (raw: seq<RawId>)
    ensures InvolvedCars(rows, q, raw)
  {
    var held: set<int> := set id | id in rows && rows[id].session == q.session && IsHold(rows[id].status) :: rows[id].car;
    raw := Listed(held + {q.car});
  }

  /** Reading the session's holds: a create goes on; a rehold goes on, or returns when its hold is paying. */
  lemma ReadReady(h: string -> int, s: State, t: nat) returns (step: Step)
    requires t < |s.txns| && s.txns[t].phase == SessionLocked
    ensures step.ReadHolds? || step.Finish?
    ensures step.t == t && Enabled(h, s, step)
  {
    var q := s.txns[t].req;
    var raw := InvolvedList(s.rows, q);
    if q.kind == Create || !SessionHasActive(s.rows, q.session, s.clock) {
      step := ReadHolds(t, None, raw);
    } else {
      var id :| ActiveOf(s.rows, q.session, s.clock, id);
      step := if s.rows[id].status == PendingPayment then ReadHolds(t, Some(id), raw) else Finish(t);
    }
  }

  /** The program can go on to the car locks with what it read. */
  ghost predicate CanRead(h: string -> int, s: State, t: nat, peek: Option<nat>) {
    exists raw :: Enabled(h, s, ReadHolds(t, peek, raw))
  }

  /**
   * What a rehold does with what it reads of its session: it returns iff an active hold is paying; it goes on with
   * an active hold iff that is pending, and with none iff there is none. With one hold in the session exactly one
   * of the three is open to it.
   */
  lemma ReholdReadDecides(h: string -> int, s: State, t: nat)
    requires t < |s.txns| && s.txns[t].phase == SessionLocked && s.txns[t].req.kind == Rehold
    ensures var session := s.txns[t].req.session;
            && (Enabled(h, s, Finish(t)) <==>
                  exists id :: ActiveOf(s.rows, session, s.clock, id) && s.rows[id].status == ProcessingPayment)
            && (forall id :: CanRead(h, s, t, Some(id)) <==>
                  ActiveOf(s.rows, session, s.clock, id) && s.rows[id].status == PendingPayment)
            && (CanRead(h, s, t, None) <==> !SessionHasActive(s.rows, session, s.clock))
    ensures OneHoldPerSession(s.rows) ==> (Enabled(h, s, Finish(t)) <==> !exists peek :: CanRead(h, s, t, peek))
  {
    var q := s.txns[t].req;
    var raw := InvolvedList(s.rows, q);
    forall id | ActiveOf(s.rows, q.session, s.clock, id) && s.rows[id].status == PendingPayment ensures CanRead(h, s, t, Some(id)) {
      assert Enabled(h, s, ReadHolds(t, Some(id), raw));
    }
    if !SessionHasActive(s.rows, q.session, s.clock) {
      assert Enabled(h, s, ReadHolds(t, None, raw));
    }
  }

  /** The program's own next step of a transaction that waits for no advisory lock. */
  lemma NextStep(h: string -> int, s: State, t: nat) returns (step: Step)
    requires Inv(h, s) && PeekInv(s) && Unfinished(s, t) && !Waiting(h, s, t)
    ensures OwnStep(step) && step.t == t && Enabled(h, s, step)
  {
    var x := s.txns[t];
    assert TxnOk(x, s.rows, s.clock) && LockedOk(x);
    match x.phase {
      case Begun => step := LockSession(t);
      case SessionLocked => step := ReadReady(h, s, t);
      case Locking =>
        if x.taken < |x.cars| {
          step := LockCar(t);
        } else {
          SweepSessionReady(h, s, t);
          step := SweepSession(t);
        }
      case SessionSwept =>
        ChooseTargetReady(h, s, t);
        step := if Enabled(h, s, ChooseTarget(t)) then ChooseTarget(t) else Finish(t);
      case Targeted =>
        SweepCarReady(h, s, t);
        step := if x.req.kind == Create then SweepCar(t) else SweepOldCar(t);
      case OldCarSwept =>
        SweepCarReady(h, s, t);
        step := SweepCar(t);
      case CarSwept =>
        CheckReady(h, s, t);
        step := if Enabled(h, s, CheckOverlap(t)) then CheckOverlap(t) else Finish(t);
      case Cleared =>
        WriteReady(h, s, t);
        step := Write(t);
      case Written => step := Finish(t);
    }
  }

  /** A transaction may fail at any point until it has ended, and then takes no step any more. */
  lemma EndIsFinal(h: string -> int, s: State, t: nat, step: Step)
    requires t < |s.txns|
    ensures Enabled(h, s, Rollback(t)) <==> Unfinished(s, t)
    ensures OwnStep(step) && step.t == t && Enabled(h, s, step) ==> Unfinished(s, t)
  {
  }

  lemma WaitingHasNoStep(h: string -> int, s: State, t: nat, step: Step)
    requires Waiting(h, s, t) && OwnStep(step) && step.t == t
    ensures !Enabled(h, s, step)
  {
  }

  /** A hold transaction waits for advisory locks alone: in every other place its own next step is enabled. */
  lemma OnlyAdvisoryLocksWait(h: string -> int, s: State, t: nat)
    requires Inv(h, s) && PeekInv(s) && Unfinished(s, t)
    ensures Waiting(h, s, t) <==> !exists step :: OwnStep(step) && step.t == t && Enabled(h, s, step)
  {
    if Waiting(h, s, t) {
      forall step | OwnStep(step) && step.t == t ensures !Enabled(h, s, step) { WaitingHasNoStep(h, s, t, step); }
    } else {
      var step := NextStep(h, s, t);
    }
  }

  /** No deadlock: while any transaction is unfinished, some transaction's own next step is enabled. */
  lemma NoDeadlock(h: string -> int, s: State, t: nat)
    requires Inv(h, s) && PeekInv(s) && Unfinished(s, t)
    ensures exists step :: OwnStep(step) && Enabled(h, s, step)
  {
    var free := SomeoneIsFree(h, s, t);
    var step := NextStep(h, s, free);
  }

  // ---------- Completion ----------

  function Prelude(x: Txn): nat {
    match x.phase
    case Begun => 2
    case SessionLocked => 1
    case _ => 0
  }

  function Remaining(x: Txn): nat {
    match x.phase
    case Begun => 0
    case SessionLocked => 0
    case Locking => 8 + (if x.taken < |x.cars| then |x.cars| - x.taken else 0)
    case Done => 0
    case phase => 10 - Rank(phase)
  }

  function Preludes(txns: seq<Txn>): nat {
    if txns == [] then 0 else Prelude(txns[0]) + Preludes(txns[1..])
  }

  function Remainings(txns: seq<Txn>): nat {
    if txns == [] then 0 else Remaining(txns[0]) + Remainings(txns[1..])
  }

  lemma {:induction false} SumsUpdate(txns: seq<Txn>, t: nat, x: Txn)
    requires t < |txns|
    ensures Preludes(txns[t := x]) == Preludes(txns) - Prelude(txns[t]) + Prelude(x)
    ensures Remainings(txns[t := x]) == Remainings(txns) - Remaining(txns[t]) + Remaining(x)
  {
    if t == 0 {
      assert txns[0 := x][1..] == txns[1..];
    } else {
      SumsUpdate(txns[1..], t - 1, x);
      assert txns[t := x][1..] == txns[1..][t - 1 := x];
    }
  }

  /** Own steps left: first the steps up to reading the car list, then the locks, checks and commit. */
  ghost predicate Closer(s': State, s: State) {
    || Preludes(s'.txns) < Preludes(s.txns)
    || (Preludes(s'.txns) == Preludes(s.txns) && Remainings(s'.txns) < Remainings(s.txns))
  }

  lemma OwnStepRecord(h: string -> int, s: State, step: Step)
    requires OwnStep(step) && Enabled(h, s, step)
    ensures step.t < |s.txns|
    ensures var x, s' := s.txns[step.t], Apply(h, s, step);
            && |s'.txns| == |s.txns| && s'.txns == s.txns[step.t := s'.txns[step.t]]
            && (Prelude(s'.txns[step.t]) < Prelude(x)
                || (Prelude(s'.txns[step.t]) == Prelude(x) && Remaining(s'.txns[step.t]) < Remaining(x)))
  {
  }

  /** Every own step brings the whole system closer to completion; steps of others never set it back. */
  lemma OwnStepsTerminate(h: string -> int, s: State, step: Step)
    requires Enabled(h, s, step)
    ensures OwnStep(step) ==> Closer(Apply(h, s, step), s)
    ensures step.Lifecycle? || step.InsertConfirmed? || step.Tick? ==> Apply(h, s, step).txns == s.txns
  {
    if OwnStep(step) {
      OwnStepRecord(h, s, step);
      SumsUpdate(s.txns, step.t, Apply(h, s, step).txns[step.t]);
    }
  }

  ghost predicate AllDone(s: State) {
    forall t :: 0 <= t < |s.txns| ==> s.txns[t].phase == Done
  }

  /** A way to the end by own steps alone. */
  ghost predicate Completion(h: string -> int, s: State, steps: seq<Step>, s': State) {
    (forall i :: 0 <= i < |steps| ==> OwnStep(steps[i])) && Run(h, s, steps, s') && AllDone(s')
  }

  lemma LongerCompletion(h: string -> int, s: State, step: Step, rest: seq<Step>, s': State)
    requires OwnStep(step) && Enabled(h, s, step) && Completion(h, Apply(h, s, step), rest, s')
    ensures Completion(h, s, [step] + rest, s')
  {
    assert ([step] + rest)[1..] == rest;
  }

  lemma ProgressStep(h: string -> int, s: State) returns (step: Step)
    requires Inv(h, s) && PeekInv(s) && !AllDone(s)
    ensures OwnStep(step) && Enabled(h, s, step)
    ensures var s' := Apply(h, s, step); Inv(h, s') && PeekInv(s') && Closer(s', s)
  {
    var t :| 0 <= t < |s.txns| && s.txns[t].phase != Done;
    var free := SomeoneIsFree(h, s, t);
    step := NextStep(h, s, free);
    StepKeepsInv(h, s, step);
    StepKeepsPeek(h, s, step);
    OwnStepsTerminate(h, s, step);
  }

  /** From every reachable state the transactions can all complete by own steps alone. */
  lemma {:induction false} AllComplete(h: string -> int, s: State)
    requires Inv(h, s) && PeekInv(s)
    ensures exists steps, s' :: Completion(h, s, steps, s')
    decreases Preludes(s.txns), Remainings(s.txns)
  {
    if AllDone(s) {
      assert Completion(h, s, [], s);
    } else {
      var step := ProgressStep(h, s);
      AllComplete(h, Apply(h, s, step));
      var rest, s' :| Completion(h, Apply(h, s, step), rest, s');
      LongerCompletion(h, s, step, rest, s');
    }
  }

  /** From a clean database no interleaving gets stuck: somebody can move, and everybody can finish. */
  lemma NeverStuck(h: string -> int, start: State, steps: seq<Step>, s: State)
    requires Initial(start) && Run(h, start, steps, s)
    ensures (exists t :: Unfinished(s, t)) ==> exists step :: OwnStep(step) && Enabled(h, s, step)
    ensures exists more, s' :: Completion(h, s, more, s')
  {
    RunKeepsPeek(h, start, steps, s);
    if t :| Unfinished(s, t) {
      NoDeadlock(h, s, t);
    }
    AllComplete(h, s);
  }
}
