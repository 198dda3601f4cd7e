/**
 * Hold create and rehold as interleaved SQL statements of any number of transactions over one
 * reservations table, together with every lifecycle writer that touches the same rows.
 * A statement sees the committed rows and the transaction's own writes (READ COMMITTED).
 * The exclusion constraint and the unique index of the schema are deliberately absent.
 */
module HoldProtocol {
  import opened Results
  import opened ReservationStatus
  import opened LockOrder

  type CarId = c: int | c > 0 witness 1

  const HOLD_WINDOW_MS: int := 35 * 60 * 1000

  datatype Row = Row(session: string, car: CarId, start: int, end: int, status: Status, expires: int)

  type Table = map<nat, Row>

  predicate Overlaps(start: int, end: int, row: Row) {
    row.start < end && row.end > start
  }

  predicate Active(row: Row, now: int) {
    IsHold(row.status) && row.expires > now
  }

  predicate Stale(row: Row, now: int) {
    IsHold(row.status) && row.expires <= now
  }

  datatype Kind = Create | Rehold

  // `now` is read once by the caller, before any lock is waited for.
  datatype Request = Request(kind: Kind, session: string, car: CarId, start: int, end: int, now: int)

  datatype Phase =
    | Begun          // waiting for the session lock
    | SessionLocked  // about to read the session's holds
    | Locking        // taking the car locks, `taken` so far
    | SessionSwept   // stale holds of the session expired
    | Targeted       // create: no active hold found; rehold: the pending row is locked
    | OldCarSwept    // stale holds of the row's own car expired (rehold)
    | CarSwept       // stale holds of the wanted car expired
    | Cleared        // no overlapping hold found
    | Written        // row inserted or updated, not committed
    | Done

  datatype Txn = Txn(
    req: Request, phase: Phase, cars: seq<int>, taken: nat,
    peeked: Option<nat>, target: Option<nat>, writes: Table)

  datatype State = State(
    clock: int, nextId: nat, rows: Table, locks: map<LockKey, nat>, txns: seq<Txn>)

  datatype Step =
    | Begin(req: Request)
    | LockSession(t: nat)
    | ReadHolds(t: nat, peek: Option<nat>, raw: seq<RawId>)
    | LockCar(t: nat)
    | SweepSession(t: nat)
    | ChooseTarget(t: nat)
    | SweepOldCar(t: nat)
    | SweepCar(t: nat)
    | CheckOverlap(t: nat)
    | Write(t: nat)
    | Finish(t: nat)    // return from the work body where the program returns: COMMIT
    | Rollback(t: nat)  // any failure
    | Lifecycle(id: nat, to: Status, newExpiry: int)
    | InsertConfirmed(row: Row)
    | Tick(ms: nat)

  function View(s: State, t: nat): Table
    requires t < |s.txns|
  {
    s.rows + s.txns[t].writes
  }

  /** No transaction but t holds the row lock of id. */
  predicate RowFree(s: State, id: nat, t: nat) {
    forall u :: 0 <= u < |s.txns| && u != t ==> id !in s.txns[u].writes
  }

  function StaleOfSession(view: Table, session: string, now: int): set<nat> {
    set id | id in view && view[id].session == session && Stale(view[id], now)
  }

  function StaleOfCar(view: Table, car: int, now: int): set<nat> {
    set id | id in view && view[id].car == car && Stale(view[id], now)
  }

  function Expire(view: Table, ids: set<nat>, now: int): Table
    requires ids <= view.Keys
  {
    map id | id in ids :: view[id].(status := Status.Expired, expires := now)
  }

  predicate ActiveOf(view: Table, session: string, clock: int, id: nat) {
    id in view && view[id].session == session && Active(view[id], clock)
  }

  ghost predicate SessionHasActive(view: Table, session: string, clock: int) {
    exists id :: ActiveOf(view, session, clock, id)
  }

  /** The row that a rehold peeked at, read again under its row lock, may still be moved. */
  predicate Reholdable(view: Table, session: string, id: nat) {
    id in view && view[id].session == session && view[id].status == PendingPayment
  }

  ghost predicate Blocking(view: Table, q: Request, except: Option<nat>, id: nat) {
    && id in view && except != Some(id) && view[id].car == q.car
    && Active(view[id], q.now) && Overlaps(q.start, q.end, view[id])
  }

  ghost predicate InvolvedCars(rows: Table, q: Request, raw: seq<RawId>) {
    forall c: int :: Whole(c) in raw <==>
      c == q.car || exists id :: id in rows && rows[id].session == q.session && IsHold(rows[id].status) && rows[id].car == c
  }

  predicate LockFree(s: State, key: LockKey, t: nat) {
    key !in s.locks || s.locks[key] == t
  }

  /**
   * Where the work body returns. SessionLocked: a rehold's active hold is already paying. SessionSwept: a
   * create found an active hold, a rehold found none or, under its row lock, none to move. CarSwept: the
   * slot is blocked. Cleared: an open rental or a booked range was found.
   */
  ghost predicate Returns(s: State, t: nat)
    requires t < |s.txns|
  {
    var x := s.txns[t];
    match x.phase
    case SessionLocked =>
      x.req.kind == Rehold
      && exists id :: ActiveOf(s.rows, x.req.session, s.clock, id) && s.rows[id].status == ProcessingPayment
    case SessionSwept =>
      if x.req.kind == Create then SessionHasActive(View(s, t), x.req.session, s.clock)
      else x.peeked.None? || (RowFree(s, x.peeked.value, t) && !Reholdable(View(s, t), x.req.session, x.peeked.value))
    case CarSwept => exists id :: Blocking(View(s, t), x.req, x.target, id)
    case Cleared => true
    case Written => true
    case _ => false
  }

  ghost predicate Enabled(h: string -> int, s: State, step: Step) {
    match step
    case Begin(req) => req.now <= s.clock
    case LockSession(t) =>
      t < |s.txns| && s.txns[t].phase == Begun && LockFree(s, SessionKey(h(s.txns[t].req.session)), t)
    case ReadHolds(t, peek, raw) =>
      t < |s.txns| && s.txns[t].phase == SessionLocked && InvolvedCars(s.rows, s.txns[t].req, raw)
      && (match s.txns[t].req.kind
         case Create => peek == None
         case Rehold =>
           var session := s.txns[t].req.session;
           if peek.None? then !SessionHasActive(s.rows, session, s.clock)
           else ActiveOf(s.rows, session, s.clock, peek.value) && s.rows[peek.value].status == PendingPayment)
    case LockCar(t) =>
      && t < |s.txns| && s.txns[t].phase == Locking && s.txns[t].taken < |s.txns[t].cars|
      && LockFree(s, CarKey(s.txns[t].cars[s.txns[t].taken]), t)
    case SweepSession(t) =>
      && t < |s.txns| && s.txns[t].phase == Locking && s.txns[t].taken == |s.txns[t].cars|
      && forall id :: id in StaleOfSession(View(s, t), s.txns[t].req.session, s.txns[t].req.now) ==> RowFree(s, id, t)
    case ChooseTarget(t) =>
      && t < |s.txns| && s.txns[t].phase == SessionSwept
      && (match s.txns[t].req.kind
          case Create => !SessionHasActive(View(s, t), s.txns[t].req.session, s.clock)
          case Rehold =>
            && s.txns[t].peeked.Some? && s.txns[t].peeked.value in s.rows && RowFree(s, s.txns[t].peeked.value, t)
            && Reholdable(View(s, t), s.txns[t].req.session, s.txns[t].peeked.value))
    case SweepOldCar(t) =>
      && t < |s.txns| && s.txns[t].phase == Targeted && s.txns[t].req.kind == Rehold
      && s.txns[t].target.Some? && s.txns[t].target.value in View(s, t)
      && forall id :: id in StaleOfCar(View(s, t), View(s, t)[s.txns[t].target.value].car, s.txns[t].req.now) ==> RowFree(s, id, t)
    case SweepCar(t) =>
      && t < |s.txns| && s.txns[t].phase == (if s.txns[t].req.kind == Create then Targeted else OldCarSwept)
      && forall id :: id in StaleOfCar(View(s, t), s.txns[t].req.car, s.txns[t].req.now) ==> RowFree(s, id, t)
    case CheckOverlap(t) =>
      && t < |s.txns| && s.txns[t].phase == CarSwept
      && forall id :: !Blocking(View(s, t), s.txns[t].req, s.txns[t].target, id)
    case Write(t) =>
      && t < |s.txns| && s.txns[t].phase == Cleared
      && (s.txns[t].req.kind == Rehold ==>
            && s.txns[t].target.Some? && s.txns[t].target.value in View(s, t)
            && View(s, t)[s.txns[t].target.value].status == PendingPayment)
    case Finish(t) => t < |s.txns| && Returns(s, t)
    case Rollback(t) => t < |s.txns| && s.txns[t].phase != Done
    case Lifecycle(id, to, newExpiry) =>
      && id in s.rows && RowFree(s, id, |s.txns|) && Allowed(s.rows[id].status, to)
      && (IsHold(to) ==> newExpiry == s.rows[id].expires || newExpiry > s.clock)
    case InsertConfirmed(row) => row.status == Confirmed
    case Tick(ms) => true
  }

  function Put(s: State, t: nat, x: Txn): State
    requires t < |s.txns|
  {
    s.(txns := s.txns[t := x])
  }

  function Release(locks: map<LockKey, nat>, t: nat): map<LockKey, nat> {
    map key | key in locks && locks[key] != t :: locks[key]
  }

  function Ended(x: Txn): Txn {
    x.(phase := Done, writes := map[])
  }

  ghost function Apply(h: string -> int, s: State, step: Step): State
    requires Enabled(h, s, step)
  {
    match step
    case Begin(req) =>
      s.(txns := s.txns + [Txn(req, Begun, [], 0, None, None, map[])])
    case LockSession(t) =>
      var x := s.txns[t];
      Put(s, t, x.(phase := SessionLocked)).(locks := s.locks[SessionKey(h(x.req.session)) := t])
    case ReadHolds(t, peek, raw) =>
      Put(s, t, s.txns[t].(phase := Locking, cars := CarLockOrder(raw), taken := 0, peeked := peek))
    case LockCar(t) =>
      var x := s.txns[t];
      Put(s, t, x.(taken := x.taken + 1)).(locks := s.locks[CarKey(x.cars[x.taken]) := t])
    case SweepSession(t) =>
      var x := s.txns[t];
      var ids := StaleOfSession(View(s, t), x.req.session, x.req.now);
      Put(s, t, x.(phase := SessionSwept, writes := x.writes + Expire(View(s, t), ids, x.req.now)))
    case ChooseTarget(t) =>
      var x := s.txns[t];
      if x.req.kind == Create then
        Put(s, t, x.(phase := Targeted, target := None))
      else
        var id := x.peeked.value;
        Put(s, t, x.(phase := Targeted, target := Some(id), writes := x.writes[id := View(s, t)[id]]))
    case SweepOldCar(t) =>
      var x := s.txns[t];
      var ids := StaleOfCar(View(s, t), View(s, t)[x.target.value].car, x.req.now);
      Put(s, t, x.(phase := OldCarSwept, writes := x.writes + Expire(View(s, t), ids, x.req.now)))
    case SweepCar(t) =>
      var x := s.txns[t];
      var ids := StaleOfCar(View(s, t), x.req.car, x.req.now);
      Put(s, t, x.(phase := CarSwept, writes := x.writes + Expire(View(s, t), ids, x.req.now)))
    case CheckOverlap(t) =>
      Put(s, t, s.txns[t].(phase := Cleared))
    case Write(t) =>
      var x := s.txns[t];
      var expires := s.clock + HOLD_WINDOW_MS;
      if x.req.kind == Create then
        var row := Row(x.req.session, x.req.car, x.req.start, x.req.end, PendingPayment, expires);
        Put(s, t, x.(phase := Written, target := Some(s.nextId), writes := x.writes[s.nextId := row]))
          .(nextId := s.nextId + 1)
      else
        var id := x.target.value;
        var row := View(s, t)[id].(car := x.req.car, start := x.req.start, end := x.req.end, expires := expires);
        Put(s, t, x.(phase := Written, writes := x.writes[id := row]))
    case Finish(t) =>
      Put(s, t, Ended(s.txns[t])).(rows := View(s, t), locks := Release(s.locks, t))
    case Rollback(t) =>
      Put(s, t, Ended(s.txns[t])).(locks := Release(s.locks, t))
    case Lifecycle(id, to, newExpiry) =>
      s.(rows := s.rows[id := s.rows[id].(status := to, expires := newExpiry)])
    case InsertConfirmed(row) =>
      s.(rows := s.rows[s.nextId := row], nextId := s.nextId + 1)
    case Tick(ms) => s.(clock := s.clock + ms)
  }

  /** The database before any hold transaction: any table without conflicting holds. */
  ghost predicate Initial(s: State) {
    && s.txns == [] && s.locks == map[]
    && (forall id :: id in s.rows ==> id < s.nextId)
    && NoConflictingHolds(s.rows) && OneHoldPerSession(s.rows)
  }

  /** s' is reached from s by the steps, each enabled where it is taken. */
  ghost predicate Run(h: string -> int, s: State, steps: seq<Step>, s': State)
    decreases |steps|
  {
    if steps == [] then s == s'
    else Enabled(h, s, steps[0]) && Run(h, Apply(h, s, steps[0]), steps[1..], s')
  }

  ghost predicate Conflict(rows: Table, a: nat, b: nat)
    requires a in rows && b in rows
  {
    && IsHold(rows[a].status) && IsHold(rows[b].status) && rows[a].car == rows[b].car
    && Overlaps(rows[a].start, rows[a].end, rows[b])
  }

  ghost predicate NoConflictingHolds(rows: Table) {
    forall a, b :: a in rows && b in rows && a != b ==> !Conflict(rows, a, b)
  }

  ghost predicate OneHoldPerSession(rows: Table) {
    forall a, b :: a in rows && b in rows && a != b && IsHold(rows[a].status) && IsHold(rows[b].status) ==>
      rows[a].session != rows[b].session
  }
}
