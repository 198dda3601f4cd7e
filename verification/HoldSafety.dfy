/**
 * Safety of the hold protocol: in every interleaving no two holds on one car overlap, and every
 * reservation lives a lifecycle.
 */
module HoldSafety {
  import opened Results
  import opened ReservationStatus
  import opened LockOrder
  import opened HoldProtocol

  function Rank(p: Phase): nat {
    match p
    case Begun => 0
    case SessionLocked => 1
    case Locking => 2
    case SessionSwept => 3
    case Targeted => 4
    case OldCarSwept => 5
    case CarSwept => 6
    case Cleared => 7
    case Written => 8
    case Done => 9
  }

  predicate Live(p: Phase) { p != Begun && p != Done }

  predicate Reached(p: Phase, q: Phase) { p != Done && Rank(q) <= Rank(p) }

  /** x holds this advisory lock, by its own record of what it took. */
  ghost predicate KeyOf(h: string -> int, x: Txn, key: LockKey) {
    && Live(x.phase) && x.taken <= |x.cars|
    && (key == SessionKey(h(x.req.session)) || (key.CarKey? && key.car in x.cars[..x.taken]))
  }

  ghost predicate LocksExact(h: string -> int, s: State) {
    && (forall key :: key in s.locks ==> s.locks[key] < |s.txns| && KeyOf(h, s.txns[s.locks[key]], key))
    && (forall t, key :: 0 <= t < |s.txns| && KeyOf(h, s.txns[t], key) ==> key in s.locks && s.locks[key] == t)
  }

  ghost predicate SamePlace(a: Row, b: Row) {
    a.session == b.session && a.car == b.car && a.start == b.start && a.end == b.end
  }

  /** What a write buffered by x may be: its own hold, a row lock, or an expiry. */
  ghost predicate WriteOk(x: Txn, rows: Table, id: nat)
    requires id in x.writes
  {
    || (x.phase == Written && x.target == Some(id))
    || (id in rows && SamePlace(x.writes[id], rows[id]) &&
        (x.writes[id] == rows[id] || (IsHold(rows[id].status) && x.writes[id].status == Status.Expired)))
  }

  ghost predicate TargetOk(x: Txn, rows: Table) {
    && (x.req.kind == Rehold && Reached(x.phase, Targeted) ==>
          && x.target.Some? && x.target.value in x.writes && x.target.value in rows
          && rows[x.target.value].session == x.req.session && rows[x.target.value].status == PendingPayment)
    && (x.req.kind == Create && Reached(x.phase, Targeted) && x.phase != Written ==> x.target == None)
    && (x.phase == Written ==>
          && x.target.Some? && x.target.value in x.writes
          && (x.req.kind == Create ==> x.target.value !in rows)
          && var row := x.writes[x.target.value];
             SamePlace(row, Row(x.req.session, x.req.car, x.req.start, x.req.end, PendingPayment, 0)) && row.status == PendingPayment)
  }

  /** Every row x has written or may still write lives on a car that x has locked. */
  ghost predicate RowsCovered(x: Txn, rows: Table) {
    && (forall id :: id in x.writes && id in rows ==> rows[id].car in x.cars)
    && (Reached(x.phase, Locking) ==>
          forall id :: id in rows && rows[id].session == x.req.session && IsHold(rows[id].status) ==> rows[id].car in x.cars)
  }

  ghost predicate ViewOk(x: Txn, view: Table) {
    && (x.phase == CarSwept ==>
          forall id :: id in view && view[id].car == x.req.car ==> !Stale(view[id], x.req.now))
    && (Reached(x.phase, Cleared) ==>
          forall id :: id in view && x.target != Some(id) && view[id].car == x.req.car && IsHold(view[id].status) ==>
            !Overlaps(x.req.start, x.req.end, view[id]))
  }

  ghost predicate TxnOk(x: Txn, rows: Table, clock: int) {
    && x.req.now <= clock && x.taken <= |x.cars|
    && (!Reached(x.phase, SessionSwept) ==> x.writes == map[])
    && (Reached(x.phase, SessionSwept) ==> x.taken == |x.cars|)
    && (Reached(x.phase, Locking) ==> x.req.car in x.cars && Ascending(x.cars))
    && (Reached(x.phase, Locking) ==> forall c :: c in x.cars ==> c > 0)
    && (!Reached(x.phase, Locking) ==> x.taken == 0 || x.phase == Done)
    && (forall id :: id in x.writes ==> WriteOk(x, rows, id))
    && TargetOk(x, rows) && RowsCovered(x, rows) && ViewOk(x, rows + x.writes)
  }

  ghost predicate IdsFresh(s: State) {
    && (forall id :: id in s.rows ==> id < s.nextId)
    && (forall t, id :: 0 <= t < |s.txns| && id in s.txns[t].writes ==> id < s.nextId)
  }

  /** Row locks are exclusive. */
  ghost predicate WritesDisjoint(s: State) {
    forall t, u, id :: 0 <= t < |s.txns| && 0 <= u < |s.txns| && id in s.txns[t].writes && id in s.txns[u].writes ==> t == u
  }

  ghost predicate Inv(h: string -> int, s: State) {
    && IdsFresh(s) && WritesDisjoint(s) && LocksExact(h, s)
    && (forall t :: 0 <= t < |s.txns| ==> TxnOk(s.txns[t], s.rows, s.clock))
    && NoConflictingHolds(s.rows)
  }

  /** A change of one committed row by somebody else, as x sees it. */
  ghost predicate RowBenign(x: Txn, rows: Table, rows': Table, clock: int, id: nat)
    requires id in rows'
  {
    || !IsHold(rows'[id].status)
    || (id in rows && IsHold(rows[id].status) && SamePlace(rows[id], rows'[id])
        && (rows'[id].expires == rows[id].expires || rows'[id].expires > clock))
    || (&& (Reached(x.phase, SessionSwept) ==> rows'[id].car != x.req.car)
        && (Reached(x.phase, SessionLocked) ==> rows'[id].session != x.req.session))
  }

  ghost predicate Benign(x: Txn, rows: Table, rows': Table, clock: int) {
    && rows.Keys <= rows'.Keys
    && (forall id :: id in x.writes && id in rows' ==> id in rows && rows'[id] == rows[id])
    && (forall id :: id in rows' && id !in x.writes ==> RowBenign(x, rows, rows', clock, id))
  }

  /** A hold that x sees on the car it wants was there before, in the same place, no nearer to its expiry than the clock. */
  lemma CarRowStable(x: Txn, rows: Table, clock: int, rows': Table, id: nat)
    requires Benign(x, rows, rows', clock) && Reached(x.phase, CarSwept) && id in rows' + x.writes
    requires (rows' + x.writes)[id].car == x.req.car && IsHold((rows' + x.writes)[id].status)
    ensures var view, view' := rows + x.writes, rows' + x.writes;
            && id in view && SamePlace(view[id], view'[id]) && IsHold(view[id].status)
            && (view'[id].expires == view[id].expires || view'[id].expires > clock)
  {
    if id !in x.writes { assert RowBenign(x, rows, rows', clock, id); }
  }

  lemma ViewStable(x: Txn, rows: Table, clock: int, rows': Table)
    requires x.req.now <= clock && ViewOk(x, rows + x.writes) && Benign(x, rows, rows', clock)
    ensures ViewOk(x, rows' + x.writes)
  {
    var view' := rows' + x.writes;
    forall id | id in view' && view'[id].car == x.req.car && IsHold(view'[id].status) && Reached(x.phase, CarSwept)
      ensures x.phase == CarSwept ==> !Stale(view'[id], x.req.now)
      ensures Reached(x.phase, Cleared) && x.target != Some(id) ==> !Overlaps(x.req.start, x.req.end, view'[id])
    {
      CarRowStable(x, rows, clock, rows', id);
    }
  }

  lemma CoverStable(x: Txn, rows: Table, clock: int, rows': Table)
    requires RowsCovered(x, rows) && Benign(x, rows, rows', clock)
    ensures RowsCovered(x, rows')
  {
    forall id | id in rows' && rows'[id].session == x.req.session && IsHold(rows'[id].status) && Reached(x.phase, Locking)
      ensures rows'[id].car in x.cars
    {
      if id !in x.writes { assert RowBenign(x, rows, rows', clock, id); }
    }
  }

  lemma TxnStable(x: Txn, rows: Table, clock: int, rows': Table, clock': int)
    requires TxnOk(x, rows, clock) && clock <= clock' && Benign(x, rows, rows', clock)
    ensures TxnOk(x, rows', clock')
  {
    forall id | id in x.writes ensures WriteOk(x, rows', id) {
      assert WriteOk(x, rows, id);
    }
    ViewStable(x, rows, clock, rows');
    CoverStable(x, rows, clock, rows');
  }

  /** Only one transaction holds a given advisory lock. */
  lemma Exclusive(h: string -> int, s: State, t: nat, u: nat, key: LockKey)
    requires LocksExact(h, s) && t < |s.txns| && u < |s.txns|
    requires KeyOf(h, s.txns[t], key) && KeyOf(h, s.txns[u], key)
    ensures t == u
  {
    assert key in s.locks && s.locks[key] == t;
    assert s.locks[key] == u;
  }

  /** Two live transactions beyond the car locks want different cars and serve different sessions. */
  lemma Apart(h: string -> int, s: State, t: nat, u: nat)
    requires Inv(h, s) && t < |s.txns| && u < |s.txns| && t != u
    requires Reached(s.txns[t].phase, SessionSwept) && Live(s.txns[u].phase)
    ensures s.txns[t].req.session != s.txns[u].req.session
    ensures Reached(s.txns[u].phase, SessionSwept) ==> s.txns[t].req.car != s.txns[u].req.car
  {
    var x, y := s.txns[t], s.txns[u];
    assert TxnOk(x, s.rows, s.clock) && TxnOk(y, s.rows, s.clock);
    if x.req.session == y.req.session {
      Exclusive(h, s, t, u, SessionKey(h(x.req.session)));
    }
    if Reached(y.phase, SessionSwept) && x.req.car == y.req.car {
      assert x.cars[..x.taken] == x.cars && y.cars[..y.taken] == y.cars;
      Exclusive(h, s, t, u, CarKey(x.req.car));
    }
  }

  /** The commit of t is harmless to every other transaction. */
  lemma CommitBenign(h: string -> int, s: State, t: nat, u: nat)
    requires Inv(h, s) && t < |s.txns| && u < |s.txns| && t != u
    requires s.txns[t].phase != Done
    ensures Benign(s.txns[u], s.rows, View(s, t), s.clock)
  {
    var x, y, rows' := s.txns[t], s.txns[u], View(s, t);
    assert TxnOk(x, s.rows, s.clock) && TxnOk(y, s.rows, s.clock);
    forall id | id in rows' && id !in y.writes ensures RowBenign(y, s.rows, rows', s.clock, id) {
      if id in x.writes {
        assert WriteOk(x, s.rows, id);
        if x.phase == Written && x.target == Some(id) && y.phase != Done && Live(y.phase) {
          Apart(h, s, t, u);
        }
      }
    }
  }

  /** What t commits contains no two conflicting holds. */
  lemma CommitHasNoConflict(h: string -> int, s: State, t: nat)
    requires Inv(h, s) && t < |s.txns| && s.txns[t].phase != Done
    ensures NoConflictingHolds(View(s, t))
  {
    var x, view := s.txns[t], View(s, t);
    assert TxnOk(x, s.rows, s.clock);
    forall a, b | a in view && b in view && a != b && IsHold(view[a].status) && IsHold(view[b].status)
        && x.target != Some(a) && x.target != Some(b)
      ensures !Conflict(view, a, b)
    {
      assert a in x.writes ==> WriteOk(x, s.rows, a);
      assert b in x.writes ==> WriteOk(x, s.rows, b);
      assert !Conflict(s.rows, a, b);
    }
    if x.target.Some? && x.phase != Written && x.target.value in view && IsHold(view[x.target.value].status) {
      var id := x.target.value;
      forall a, b | a in view && b in view && a != b ensures !Conflict(view, a, b) {
        assert a in x.writes ==> WriteOk(x, s.rows, a);
        assert b in x.writes ==> WriteOk(x, s.rows, b);
        if IsHold(view[a].status) && IsHold(view[b].status) {
          assert !Conflict(s.rows, a, b);
        }
      }
    }
  }

  /** A change of the committed rows that is harmless to every transaction keeps the invariant. */
  lemma RowsChangeKeepsInv(h: string -> int, s: State, rows': Table, nextId': nat, clock': int)
    requires Inv(h, s) && NoConflictingHolds(rows') && s.nextId <= nextId' && s.clock <= clock'
    requires forall id :: id in rows' ==> id < nextId'
    requires forall u :: 0 <= u < |s.txns| ==> Benign(s.txns[u], s.rows, rows', s.clock)
    ensures Inv(h, s.(rows := rows', nextId := nextId', clock := clock'))
  {
    var s' := s.(rows := rows', nextId := nextId', clock := clock');
    forall u | 0 <= u < |s'.txns| ensures TxnOk(s'.txns[u], s'.rows, s'.clock) {
      TxnStable(s.txns[u], s.rows, s.clock, rows', clock');
    }
    assert LocksExact(h, s') by {
      forall u, key | 0 <= u < |s'.txns| && KeyOf(h, s'.txns[u], key) ensures key in s'.locks && s'.locks[key] == u {
        assert KeyOf(h, s.txns[u], key);
      }
    }
  }

  lemma ReleaseKeepsLocks(h: string -> int, s: State, t: nat)
    requires LocksExact(h, s) && t < |s.txns|
    ensures LocksExact(h, Put(s, t, Ended(s.txns[t])).(locks := Release(s.locks, t)))
  {
    var s' := Put(s, t, Ended(s.txns[t])).(locks := Release(s.locks, t));
    forall u, key | 0 <= u < |s'.txns| && KeyOf(h, s'.txns[u], key) ensures key in s'.locks && s'.locks[key] == u {
      assert u != t && KeyOf(h, s.txns[u], key);
    }
  }

  lemma RollbackKeepsInv(h: string -> int, s: State, t: nat)
    requires Inv(h, s) && t < |s.txns|
    ensures Inv(h, Released(s, t))
  {
    var s' := Released(s, t);
    ReleaseKeepsLocks(h, s, t);
    forall u | 0 <= u < |s'.txns| ensures TxnOk(s'.txns[u], s'.rows, s'.clock) {
      assert TxnOk(s.txns[u], s.rows, s.clock);
    }
  }

  function Released(s: State, t: nat): State
    requires t < |s.txns|
  {
    Put(s, t, Ended(s.txns[t])).(locks := Release(s.locks, t))
  }

  lemma EndedBenign(h: string -> int, s: State, t: nat, u: nat)
    requires Inv(h, s) && t < |s.txns| && u < |s.txns| && s.txns[t].phase != Done
    ensures Benign(Released(s, t).txns[u], s.rows, View(s, t), s.clock)
  {
    if u != t {
      CommitBenign(h, s, t, u);
    } else {
      CommitBenignToItself(h, s, t);
    }
  }

  lemma CommitBenignToItself(h: string -> int, s: State, t: nat)
    requires Inv(h, s) && t < |s.txns| && s.txns[t].phase != Done
    ensures Benign(Ended(s.txns[t]), s.rows, View(s, t), s.clock)
  {
  }

  lemma CommittedIdsFresh(h: string -> int, s: State, t: nat)
    requires Inv(h, s) && t < |s.txns|
    ensures forall id :: id in View(s, t) ==> id < s.nextId
  {
  }

  lemma FinishKeepsInv(h: string -> int, s: State, t: nat)
    requires Inv(h, s) && t < |s.txns| && s.txns[t].phase != Done
    ensures Inv(h, Released(s, t).(rows := View(s, t)))
  {
    RollbackKeepsInv(h, s, t);
    CommitHasNoConflict(h, s, t);
    CommittedIdsFresh(h, s, t);
    forall u | 0 <= u < |s.txns| ensures Benign(Released(s, t).txns[u], s.rows, View(s, t), s.clock) {
      EndedBenign(h, s, t, u);
    }
    RowsChangeKeepsInv(h, Released(s, t), View(s, t), s.nextId, s.clock);
  }

  lemma LifecycleBenign(h: string -> int, s: State, id: nat, to: Status, newExpiry: int, u: nat)
    requires Inv(h, s) && Enabled(h, s, Lifecycle(id, to, newExpiry)) && u < |s.txns|
    ensures Benign(s.txns[u], s.rows, s.rows[id := s.rows[id].(status := to, expires := newExpiry)], s.clock)
  {
    assert IsHold(to) ==> IsHold(s.rows[id].status);
    assert id !in s.txns[u].writes && TxnOk(s.txns[u], s.rows, s.clock);
  }

  lemma LifecycleKeepsInv(h: string -> int, s: State, id: nat, to: Status, newExpiry: int)
    requires Inv(h, s) && Enabled(h, s, Lifecycle(id, to, newExpiry))
    ensures Inv(h, Apply(h, s, Lifecycle(id, to, newExpiry)))
  {
    var rows' := s.rows[id := s.rows[id].(status := to, expires := newExpiry)];
    assert IsHold(to) ==> IsHold(s.rows[id].status);
    forall u | 0 <= u < |s.txns| ensures Benign(s.txns[u], s.rows, rows', s.clock) {
      LifecycleBenign(h, s, id, to, newExpiry, u);
    }
    forall a, b | a in rows' && b in rows' && a != b ensures !Conflict(rows', a, b) {
      assert !Conflict(s.rows, a, b);
    }
    RowsChangeKeepsInv(h, s, rows', s.nextId, s.clock);
  }

  lemma InsertBenign(h: string -> int, s: State, row: Row, u: nat)
    requires Inv(h, s) && row.status == Confirmed && u < |s.txns|
    ensures Benign(s.txns[u], s.rows, s.rows[s.nextId := row], s.clock)
  {
    assert TxnOk(s.txns[u], s.rows, s.clock);
  }

  lemma BookedIsNoHold(rows: Table, id: nat, row: Row)
    requires NoConflictingHolds(rows) && row.status == Confirmed
    ensures NoConflictingHolds(rows[id := row])
  {
    var rows' := rows[id := row];
    forall a, b | a in rows' && b in rows' && a != b ensures !Conflict(rows', a, b) {
      if a != id && b != id { assert !Conflict(rows, a, b); }
    }
  }

  lemma InsertKeepsInv(h: string -> int, s: State, row: Row)
    requires Inv(h, s) && row.status == Confirmed
    ensures Inv(h, s.(rows := s.rows[s.nextId := row], nextId := s.nextId + 1, clock := s.clock))
  {
    var rows' := s.rows[s.nextId := row];
    forall u | 0 <= u < |s.txns| ensures Benign(s.txns[u], s.rows, rows', s.clock) {
      InsertBenign(h, s, row, u);
    }
    BookedIsNoHold(s.rows, s.nextId, row);
    RowsChangeKeepsInv(h, s, rows', s.nextId + 1, s.clock);
  }

  lemma InsertConfirmedKeepsInv(h: string -> int, s: State, row: Row)
    requires Inv(h, s) && row.status == Confirmed
    ensures Inv(h, Apply(h, s, InsertConfirmed(row)))
  {
    InsertKeepsInv(h, s, row);
    assert Apply(h, s, InsertConfirmed(row)) == s.(rows := s.rows[s.nextId := row], nextId := s.nextId + 1, clock := s.clock);
  }

  function NewTxn(req: Request): Txn {
    Txn(req, Begun, [], 0, None, None, map[])
  }

  lemma NewTxnOk(req: Request, rows: Table, clock: int)
    requires req.now <= clock
    ensures TxnOk(NewTxn(req), rows, clock)
  {
  }

  lemma NewTxnExact(h: string -> int, s: State, req: Request)
    requires LocksExact(h, s)
    ensures LocksExact(h, s.(txns := s.txns + [NewTxn(req)]))
  {
    var s' := s.(txns := s.txns + [NewTxn(req)]);
    forall u, key | 0 <= u < |s'.txns| && KeyOf(h, s'.txns[u], key) ensures key in s'.locks && s'.locks[key] == u {
      assert u < |s.txns| && KeyOf(h, s.txns[u], key);
    }
  }

  lemma BeginKeepsInv(h: string -> int, s: State, req: Request)
    requires Inv(h, s) && req.now <= s.clock
    ensures Inv(h, Apply(h, s, Begin(req)))
  {
    var s' := s.(txns := s.txns + [NewTxn(req)]);
    NewTxnExact(h, s, req);
    NewTxnOk(req, s.rows, s.clock);
    assert IdsFresh(s') && WritesDisjoint(s');
    forall u | 0 <= u < |s'.txns| ensures TxnOk(s'.txns[u], s'.rows, s'.clock) {}
    assert Apply(h, s, Begin(req)) == s';
  }

  // ---------- Steps of a transaction on its own record ----------

  ghost predicate RecordsOk(s: State) {
    && IdsFresh(s) && WritesDisjoint(s) && NoConflictingHolds(s.rows)
    && forall t :: 0 <= t < |s.txns| ==> TxnOk(s.txns[t], s.rows, s.clock)
  }

  /** Replacing one transaction's record keeps every record sound if the new one is. */
  lemma PutKeepsRecords(s: State, t: nat, x': Txn)
    requires RecordsOk(s) && t < |s.txns| && TxnOk(x', s.rows, s.clock)
    requires forall id :: id in x'.writes ==> id < s.nextId && RowFree(s, id, t)
    ensures RecordsOk(Put(s, t, x'))
  {
    var s' := Put(s, t, x');
    assert IdsFresh(s') by {
      forall u, id | 0 <= u < |s'.txns| && id in s'.txns[u].writes ensures id < s'.nextId {
        if u != t { assert id in s.txns[u].writes; }
      }
    }
    assert WritesDisjoint(s') by {
      forall u, v, id | 0 <= u < |s'.txns| && 0 <= v < |s'.txns| && id in s'.txns[u].writes && id in s'.txns[v].writes
        ensures u == v
      {
        assert u != t && v != t ==> id in s.txns[u].writes && id in s.txns[v].writes;
        assert u == t || v == t ==> RowFree(s, id, t);
      }
    }
  }

  lemma PutKeepsLocks(h: string -> int, s: State, t: nat, x': Txn)
    requires LocksExact(h, s) && t < |s.txns| && forall key :: KeyOf(h, x', key) <==> KeyOf(h, s.txns[t], key)
    ensures LocksExact(h, Put(s, t, x'))
  {
    var s' := Put(s, t, x');
    forall u, key | 0 <= u < |s'.txns| && KeyOf(h, s'.txns[u], key) ensures key in s'.locks && s'.locks[key] == u {
      assert KeyOf(h, s.txns[u], key);
    }
  }

  lemma PutKeepsInv(h: string -> int, s: State, t: nat, x': Txn)
    requires Inv(h, s) && t < |s.txns| && TxnOk(x', s.rows, s.clock)
    requires forall key :: KeyOf(h, x', key) <==> KeyOf(h, s.txns[t], key)
    requires forall id :: id in x'.writes ==> id < s.nextId && RowFree(s, id, t)
    ensures Inv(h, Put(s, t, x'))
  {
    PutKeepsRecords(s, t, x');
    PutKeepsLocks(h, s, t, x');
    assert RecordsOk(Put(s, t, x'));
  }

  lemma OwnRowsFree(h: string -> int, s: State, t: nat, id: nat)
    requires Inv(h, s) && t < |s.txns| && id in s.txns[t].writes
    ensures RowFree(s, id, t) && id < s.nextId
  {
  }

  function LockTaken(s: State, t: nat, x': Txn, key: LockKey): State
    requires t < |s.txns|
  {
    Put(s, t, x').(locks := s.locks[key := t])
  }

  /** x' holds what x holds, and one key more. */
  ghost predicate TakesKey(h: string -> int, x: Txn, x': Txn, key: LockKey) {
    forall k :: KeyOf(h, x', k) <==> KeyOf(h, x, k) || k == key
  }

  lemma TakeLockExact(h: string -> int, s: State, t: nat, x': Txn, key: LockKey)
    requires LocksExact(h, s) && t < |s.txns| && LockFree(s, key, t)
    requires TakesKey(h, s.txns[t], x', key)
    ensures LocksExact(h, LockTaken(s, t, x', key))
  {
    var s' := Put(s, t, x').(locks := s.locks[key := t]);
    forall u, k | 0 <= u < |s'.txns| && KeyOf(h, s'.txns[u], k) ensures k in s'.locks && s'.locks[k] == u {
      if u != t { assert KeyOf(h, s.txns[u], k); } else if k != key { assert KeyOf(h, s.txns[t], k); }
    }
    forall k | k in s'.locks ensures s'.locks[k] < |s'.txns| && KeyOf(h, s'.txns[s'.locks[k]], k) {
      if k != key { assert k in s.locks; }
    }
  }

  lemma TakeLockKeepsInv(h: string -> int, s: State, t: nat, x': Txn, key: LockKey)
    requires Inv(h, s) && t < |s.txns| && TxnOk(x', s.rows, s.clock) && x'.writes == s.txns[t].writes
    requires LockFree(s, key, t)
    requires TakesKey(h, s.txns[t], x', key)
    ensures Inv(h, LockTaken(s, t, x', key))
  {
    TakeLockExact(h, s, t, x', key);
    forall id | id in x'.writes ensures id < s.nextId && RowFree(s, id, t) { OwnRowsFree(h, s, t, id); }
    PutKeepsRecords(s, t, x');
    var s' := Put(s, t, x').(locks := s.locks[key := t]);
    assert RecordsOk(s');
  }

  lemma LockSessionKeepsInv(h: string -> int, s: State, t: nat)
    requires Inv(h, s) && Enabled(h, s, LockSession(t))
    ensures Inv(h, Apply(h, s, LockSession(t)))
  {
    var x := s.txns[t];
    assert TxnOk(x, s.rows, s.clock);
    TakeLockKeepsInv(h, s, t, x.(phase := SessionLocked), SessionKey(h(x.req.session)));
  }

  lemma CarsRead(x: Txn, rows: Table, clock: int, peek: Option<nat>, raw: seq<RawId>)
    requires TxnOk(x, rows, clock) && x.phase == SessionLocked && InvolvedCars(rows, x.req, raw)
    ensures TxnOk(x.(phase := Locking, cars := CarLockOrder(raw), taken := 0, peeked := peek), rows, clock)
  {
    CarLockOrderContents(raw);
    var x' := x.(phase := Locking, cars := CarLockOrder(raw), taken := 0, peeked := peek);
    forall id | id in rows && rows[id].session == x.req.session && IsHold(rows[id].status) ensures rows[id].car in x'.cars {
      assert Whole(rows[id].car) in raw;
    }
    assert Whole(x.req.car) in raw;
  }

  lemma ReadHoldsKeepsInv(h: string -> int, s: State, t: nat, peek: Option<nat>, raw: seq<RawId>)
    requires Inv(h, s) && Enabled(h, s, ReadHolds(t, peek, raw))
    ensures Inv(h, Apply(h, s, ReadHolds(t, peek, raw)))
  {
    var x := s.txns[t];
    assert TxnOk(x, s.rows, s.clock);
    CarsRead(x, s.rows, s.clock, peek, raw);
    PutKeepsInv(h, s, t, x.(phase := Locking, cars := CarLockOrder(raw), taken := 0, peeked := peek));
  }

  lemma KeysAfterTaking(h: string -> int, x: Txn)
    requires x.phase == Locking && x.taken < |x.cars|
    ensures TakesKey(h, x, x.(taken := x.taken + 1), CarKey(x.cars[x.taken]))
  {
    assert x.cars[..x.taken + 1] == x.cars[..x.taken] + [x.cars[x.taken]];
  }

  lemma OneMoreTaken(x: Txn, rows: Table, clock: int)
    requires TxnOk(x, rows, clock) && x.phase == Locking && x.taken < |x.cars|
    ensures TxnOk(x.(taken := x.taken + 1), rows, clock)
  {
  }

  function CarTaken(s: State, t: nat): State
    requires t < |s.txns| && s.txns[t].taken < |s.txns[t].cars|
  {
    LockTaken(s, t, s.txns[t].(taken := s.txns[t].taken + 1), CarKey(s.txns[t].cars[s.txns[t].taken]))
  }

  lemma MayTakeCar(h: string -> int, s: State, t: nat) returns (x': Txn, key: LockKey)
    requires t < |s.txns| && TxnOk(s.txns[t], s.rows, s.clock)
    requires s.txns[t].phase == Locking && s.txns[t].taken < |s.txns[t].cars|
    ensures TxnOk(x', s.rows, s.clock) && x'.writes == s.txns[t].writes && TakesKey(h, s.txns[t], x', key)
    ensures key == CarKey(s.txns[t].cars[s.txns[t].taken]) && CarTaken(s, t) == LockTaken(s, t, x', key)
  {
    var x := s.txns[t];
    x', key := x.(taken := x.taken + 1), CarKey(x.cars[x.taken]);
    OneMoreTaken(x, s.rows, s.clock);
    KeysAfterTaking(h, x);
  }

  lemma TakeCarKeepsInv(h: string -> int, s: State, t: nat)
    requires Inv(h, s) && t < |s.txns| && s.txns[t].phase == Locking && s.txns[t].taken < |s.txns[t].cars|
    requires LockFree(s, CarKey(s.txns[t].cars[s.txns[t].taken]), t)
    ensures Inv(h, CarTaken(s, t))
  {
    assert TxnOk(s.txns[t], s.rows, s.clock);
    var x', key := MayTakeCar(h, s, t);
    TakeLockKeepsInv(h, s, t, x', key);
  }

  lemma LockCarShape(h: string -> int, s: State, t: nat)
    requires Enabled(h, s, LockCar(t))
    ensures Apply(h, s, LockCar(t)) == CarTaken(s, t)
  {
  }

  lemma LockCarKeepsInv(h: string -> int, s: State, t: nat)
    requires Inv(h, s) && Enabled(h, s, LockCar(t))
    ensures Inv(h, Apply(h, s, LockCar(t)))
  {
    LockCarShape(h, s, t);
    TakeCarKeepsInv(h, s, t);
  }

  function Swept(x: Txn, view: Table, ids: set<nat>, phase: Phase): Txn
    requires ids <= view.Keys
  {
    x.(phase := phase, writes := x.writes + Expire(view, ids, x.req.now))
  }

  predicate SweepPhase(x: Txn, phase: Phase) {
    && Reached(x.phase, Locking) && Rank(x.phase) < Rank(phase) && phase in {SessionSwept, OldCarSwept, CarSwept}
    && x.taken == |x.cars| && (phase == SessionSwept <==> x.phase == Locking)
    && (x.phase == SessionSwept ==> phase == SessionSwept)
  }

  lemma SweptViewOk(x: Txn, rows: Table, ids: set<nat>, phase: Phase)
    requires SweepPhase(x, phase) && ids <= (rows + x.writes).Keys
    requires phase == CarSwept ==> StaleOfCar(rows + x.writes, x.req.car, x.req.now) <= ids
    ensures ViewOk(Swept(x, rows + x.writes, ids, phase), rows + Swept(x, rows + x.writes, ids, phase).writes)
  {
    var view := rows + x.writes;
    var x' := Swept(x, view, ids, phase);
    var view' := rows + x'.writes;
    assert view'.Keys == view.Keys;
    assert forall id :: id in view' ==> view'[id] == if id in ids then Expire(view, ids, x.req.now)[id] else view[id];
  }

  lemma SweptWritesOk(x: Txn, rows: Table, ids: set<nat>, phase: Phase)
    requires SweepPhase(x, phase) && ids <= (rows + x.writes).Keys && x.phase != Written
    requires forall id :: id in ids ==> IsHold((rows + x.writes)[id].status)
    requires forall id :: id in x.writes ==> WriteOk(x, rows, id)
    ensures var x' := Swept(x, rows + x.writes, ids, phase);
            forall id :: id in x'.writes ==> WriteOk(x', rows, id)
  {
    var x' := Swept(x, rows + x.writes, ids, phase);
    forall id | id in x'.writes ensures WriteOk(x', rows, id) {
      assert id in x.writes ==> WriteOk(x, rows, id);
    }
  }

  lemma SweptTargetOk(x: Txn, rows: Table, ids: set<nat>, phase: Phase)
    requires SweepPhase(x, phase) && ids <= (rows + x.writes).Keys && x.phase != Written
    requires TargetOk(x, rows) && RowsCovered(x, rows)
    requires forall id :: id in ids && id in rows ==> rows[id].car in x.cars
    ensures TargetOk(Swept(x, rows + x.writes, ids, phase), rows) && RowsCovered(Swept(x, rows + x.writes, ids, phase), rows)
  {
  }

  lemma SweptOk(x: Txn, rows: Table, clock: int, ids: set<nat>, phase: Phase)
    requires TxnOk(x, rows, clock) && SweepPhase(x, phase) && ids <= (rows + x.writes).Keys
    requires forall id :: id in ids ==> IsHold((rows + x.writes)[id].status)
    requires forall id :: id in ids && id in rows ==> rows[id].car in x.cars
    requires phase == CarSwept ==> StaleOfCar(rows + x.writes, x.req.car, x.req.now) <= ids
    ensures TxnOk(Swept(x, rows + x.writes, ids, phase), rows, clock)
  {
    SweptWritesOk(x, rows, ids, phase);
    SweptViewOk(x, rows, ids, phase);
    SweptTargetOk(x, rows, ids, phase);
  }

  /** Expiring stale rows that are on locked cars and free keeps a record sound. */
  lemma SweepKeepsInv(h: string -> int, s: State, t: nat, ids: set<nat>, phase: Phase)
    requires Inv(h, s) && t < |s.txns| && ids <= View(s, t).Keys && SweepPhase(s.txns[t], phase)
    requires forall id :: id in ids ==> RowFree(s, id, t) && IsHold(View(s, t)[id].status)
    requires forall id :: id in ids && id in s.rows ==> s.rows[id].car in s.txns[t].cars
    requires phase == CarSwept ==> StaleOfCar(View(s, t), s.txns[t].req.car, s.txns[t].req.now) <= ids
    ensures Inv(h, Put(s, t, Swept(s.txns[t], View(s, t), ids, phase)))
  {
    var x := s.txns[t];
    assert TxnOk(x, s.rows, s.clock);
    SweptOk(x, s.rows, s.clock, ids, phase);
    var x' := Swept(x, View(s, t), ids, phase);
    forall id | id in x'.writes ensures id < s.nextId && RowFree(s, id, t) {
      if id in x.writes { OwnRowsFree(h, s, t, id); }
    }
    forall key ensures KeyOf(h, x', key) <==> KeyOf(h, x, key) {}
    PutKeepsInv(h, s, t, x');
  }

  lemma SweepSessionKeepsInv(h: string -> int, s: State, t: nat)
    requires Inv(h, s) && Enabled(h, s, SweepSession(t))
    ensures Inv(h, Apply(h, s, SweepSession(t)))
  {
    var x := s.txns[t];
    assert TxnOk(x, s.rows, s.clock);
    SweepKeepsInv(h, s, t, StaleOfSession(View(s, t), x.req.session, x.req.now), SessionSwept);
  }

  /** A row standing on a car that t has locked is never held by another transaction. */
  lemma CarRowsFree(h: string -> int, s: State, t: nat, id: nat)
    requires Inv(h, s) && t < |s.txns| && id in s.rows
    requires Reached(s.txns[t].phase, Locking) && s.txns[t].taken == |s.txns[t].cars| && s.rows[id].car in s.txns[t].cars
    ensures RowFree(s, id, t)
  {
    var x := s.txns[t];
    forall u | 0 <= u < |s.txns| && u != t ensures id !in s.txns[u].writes {
      var y := s.txns[u];
      assert TxnOk(y, s.rows, s.clock);
      if id in y.writes {
        var key := CarKey(s.rows[id].car);
        assert x.cars[..x.taken] == x.cars && y.cars[..y.taken] == y.cars;
        assert KeyOf(h, x, key) && KeyOf(h, y, key);
        Exclusive(h, s, t, u, key);
      }
    }
  }

  /** x with its target chosen: none for a create, its locked pending row for a rehold. */
  function Chosen(x: Txn, view: Table): Txn
    requires x.req.kind == Rehold ==> x.peeked.Some? && x.peeked.value in view
  {
    if x.req.kind == Create then x.(phase := Targeted, target := None)
    else x.(phase := Targeted, target := x.peeked, writes := x.writes[x.peeked.value := view[x.peeked.value]])
  }

  lemma ChosenOk(x: Txn, rows: Table, clock: int)
    requires TxnOk(x, rows, clock) && x.phase == SessionSwept
    requires x.req.kind == Rehold ==>
               && x.peeked.Some? && x.peeked.value in rows
               && (rows + x.writes)[x.peeked.value].session == x.req.session
               && (rows + x.writes)[x.peeked.value].status == PendingPayment
    ensures TxnOk(Chosen(x, rows + x.writes), rows, clock)
  {
    forall id | id in x.writes
      ensures id in rows && SamePlace(x.writes[id], rows[id])
      ensures x.writes[id] == rows[id] || (IsHold(rows[id].status) && x.writes[id].status == Status.Expired)
    {
      assert WriteOk(x, rows, id);
    }
  }

  lemma ChosenKeepsInv(h: string -> int, s: State, t: nat)
    requires Inv(h, s) && Enabled(h, s, ChooseTarget(t))
    ensures Inv(h, Put(s, t, Chosen(s.txns[t], View(s, t))))
  {
    var x := s.txns[t];
    assert TxnOk(x, s.rows, s.clock);
    ChosenOk(x, s.rows, s.clock);
    var x' := Chosen(x, View(s, t));
    forall id | id in x'.writes ensures RowFree(s, id, t) && id < s.nextId {
      if id in x.writes { OwnRowsFree(h, s, t, id); }
    }
    forall key ensures KeyOf(h, x', key) <==> KeyOf(h, x, key) {}
    PutKeepsInv(h, s, t, x');
  }

  lemma ChooseTargetKeepsInv(h: string -> int, s: State, t: nat)
    requires Inv(h, s) && Enabled(h, s, ChooseTarget(t))
    ensures Inv(h, Apply(h, s, ChooseTarget(t)))
  {
    ChosenKeepsInv(h, s, t);
  }

  lemma StaleCarSweepKeepsInv(h: string -> int, s: State, t: nat, car: int, phase: Phase)
    requires Inv(h, s) && t < |s.txns| && SweepPhase(s.txns[t], phase) && phase != SessionSwept && car in s.txns[t].cars
    requires phase == CarSwept ==> car == s.txns[t].req.car
    requires forall id :: id in StaleOfCar(View(s, t), car, s.txns[t].req.now) ==> RowFree(s, id, t)
    ensures Inv(h, Put(s, t, Swept(s.txns[t], View(s, t), StaleOfCar(View(s, t), car, s.txns[t].req.now), phase)))
  {
    var x := s.txns[t];
    assert TxnOk(x, s.rows, s.clock);
    forall id | id in x.writes ensures WriteOk(x, s.rows, id) {}
    SweepKeepsInv(h, s, t, StaleOfCar(View(s, t), car, x.req.now), phase);
  }

  lemma SweepCarsKeepsInv(h: string -> int, s: State, t: nat, step: Step)
    requires Inv(h, s) && Enabled(h, s, step) && (step == SweepOldCar(t) || step == SweepCar(t))
    ensures Inv(h, Apply(h, s, step))
  {
    var x := s.txns[t];
    assert TxnOk(x, s.rows, s.clock);
    if step.SweepOldCar? {
      assert WriteOk(x, s.rows, x.target.value);
      StaleCarSweepKeepsInv(h, s, t, View(s, t)[x.target.value].car, OldCarSwept);
    } else {
      StaleCarSweepKeepsInv(h, s, t, x.req.car, CarSwept);
    }
  }

  lemma CheckOverlapKeepsInv(h: string -> int, s: State, t: nat)
    requires Inv(h, s) && Enabled(h, s, CheckOverlap(t))
    ensures Inv(h, Apply(h, s, CheckOverlap(t)))
  {
    var x, view := s.txns[t], View(s, t);
    assert TxnOk(x, s.rows, s.clock);
    var x' := x.(phase := Cleared);
    forall id | id in x.writes ensures WriteOk(x', s.rows, id) && RowFree(s, id, t) && id < s.nextId {
      OwnRowsFree(h, s, t, id);
      assert WriteOk(x, s.rows, id);
    }
    forall id | id in view && x.target != Some(id) && view[id].car == x.req.car && IsHold(view[id].status)
      ensures !Overlaps(x.req.start, x.req.end, view[id])
    {
      assert !Stale(view[id], x.req.now) && !Blocking(view, x.req, x.target, id);
    }
    PutKeepsInv(h, s, t, x');
  }

  /** The row a transaction is about to buffer: a new one, or its locked row moved. */
  function Buffered(x: Txn, view: Table, id: nat, row: Row): Txn {
    x.(phase := Written, target := Some(id), writes := x.writes[id := row])
  }

  lemma BufferedOk(x: Txn, rows: Table, clock: int, id: nat, row: Row)
    requires TxnOk(x, rows, clock) && x.phase == Cleared
    requires SamePlace(row, Row(x.req.session, x.req.car, x.req.start, x.req.end, PendingPayment, 0)) && row.status == PendingPayment
    requires if x.req.kind == Create then id !in rows && id !in x.writes else x.target == Some(id)
    ensures TxnOk(Buffered(x, rows + x.writes, id, row), rows, clock)
  {
    var x' := Buffered(x, rows + x.writes, id, row);
    forall i | i in x'.writes ensures WriteOk(x', rows, i) {
      if i != id { assert WriteOk(x, rows, i); }
    }
    assert ViewOk(x', rows + x'.writes);
  }

  /** The row that a write buffers: a new one under a fresh id, or the locked row moved. */
  lemma WriteShape(h: string -> int, s: State, t: nat) returns (id: nat, row: Row, nextId': nat)
    requires t < |s.txns| && TxnOk(s.txns[t], s.rows, s.clock) && Enabled(h, s, Write(t))
    ensures s.nextId <= nextId' && Apply(h, s, Write(t)) == Put(s, t, Buffered(s.txns[t], View(s, t), id, row)).(nextId := nextId')
    ensures var q := s.txns[t].req;
            SamePlace(row, Row(q.session, q.car, q.start, q.end, PendingPayment, 0)) && row.status == PendingPayment
    ensures if s.txns[t].req.kind == Create then id == s.nextId < nextId'
            else s.txns[t].target == Some(id) && id in s.txns[t].writes
  {
    var x, s' := s.txns[t], Apply(h, s, Write(t));
    id := s'.txns[t].target.value;
    row, nextId' := s'.txns[t].writes[id], s'.nextId;
    if x.req.kind == Rehold { assert WriteOk(x, s.rows, id); }
  }

  lemma BufferedKeepsInv(h: string -> int, s: State, t: nat, id: nat, row: Row)
    requires Inv(h, s) && t < |s.txns| && s.txns[t].phase == Cleared
    requires TxnOk(Buffered(s.txns[t], View(s, t), id, row), s.rows, s.clock)
    requires id < s.nextId && RowFree(s, id, t)
    ensures Inv(h, Put(s, t, Buffered(s.txns[t], View(s, t), id, row)))
  {
    var x := s.txns[t];
    var x' := Buffered(x, View(s, t), id, row);
    forall i | i in x'.writes ensures i < s.nextId && RowFree(s, i, t) {
      if i in x.writes { OwnRowsFree(h, s, t, i); }
    }
    forall key ensures KeyOf(h, x', key) <==> KeyOf(h, x, key) {}
    PutKeepsInv(h, s, t, x');
  }

  lemma WriteKeepsInv(h: string -> int, s: State, t: nat)
    requires Inv(h, s) && Enabled(h, s, Write(t))
    ensures Inv(h, Apply(h, s, Write(t)))
  {
    var x := s.txns[t];
    assert TxnOk(x, s.rows, s.clock);
    var id, row, nextId' := WriteShape(h, s, t);
    if x.req.kind == Create { assert id !in s.rows && id !in x.writes; } else { OwnRowsFree(h, s, t, id); }
    BufferedOk(x, s.rows, s.clock, id, row);
    IdleKeepsInv(h, s, nextId', s.clock);
    BufferedKeepsInv(h, s.(nextId := nextId'), t, id, row);
  }

  /** Time passing and ids being drawn change nothing. */
  lemma IdleKeepsInv(h: string -> int, s: State, nextId': nat, clock': int)
    requires Inv(h, s) && s.nextId <= nextId' && s.clock <= clock'
    ensures Inv(h, s.(nextId := nextId', clock := clock'))
  {
    forall u | 0 <= u < |s.txns| ensures Benign(s.txns[u], s.rows, s.rows, s.clock) {
      assert TxnOk(s.txns[u], s.rows, s.clock);
    }
    RowsChangeKeepsInv(h, s, s.rows, nextId', clock');
  }

  lemma LockStepKeepsInv(h: string -> int, s: State, step: Step)
    requires Inv(h, s) && Enabled(h, s, step)
    requires step.LockSession? || step.ReadHolds? || step.LockCar?
    ensures Inv(h, Apply(h, s, step))
  {
    if step.LockSession? {
      LockSessionKeepsInv(h, s, step.t);
    } else if step.LockCar? {
      LockCarKeepsInv(h, s, step.t);
    } else {
      ReadHoldsKeepsInv(h, s, step.t, step.peek, step.raw);
    }
  }

  lemma BodyStepKeepsInv(h: string -> int, s: State, step: Step)
    requires Inv(h, s) && Enabled(h, s, step)
    requires step.SweepSession? || step.ChooseTarget? || step.CheckOverlap? || step.Write?
    ensures Inv(h, Apply(h, s, step))
  {
    if step.SweepSession? {
      SweepSessionKeepsInv(h, s, step.t);
    } else if step.ChooseTarget? {
      ChooseTargetKeepsInv(h, s, step.t);
    } else if step.CheckOverlap? {
      CheckOverlapKeepsInv(h, s, step.t);
    } else {
      WriteKeepsInv(h, s, step.t);
    }
  }

  lemma TickKeepsInv(h: string -> int, s: State, ms: nat)
    requires Inv(h, s)
    ensures Inv(h, Apply(h, s, Tick(ms)))
  {
    IdleKeepsInv(h, s, s.nextId, s.clock + ms);
  }

  lemma OutsideStepKeepsInv(h: string -> int, s: State, step: Step)
    requires Inv(h, s) && Enabled(h, s, step)
    requires step.Begin? || step.Lifecycle? || step.InsertConfirmed? || step.Tick?
    ensures Inv(h, Apply(h, s, step))
  {
    if step.Begin? {
      BeginKeepsInv(h, s, step.req);
    } else if step.Lifecycle? {
      LifecycleKeepsInv(h, s, step.id, step.to, step.newExpiry);
    } else if step.InsertConfirmed? {
      InsertConfirmedKeepsInv(h, s, step.row);
    } else {
      TickKeepsInv(h, s, step.ms);
    }
  }

  lemma EndStepKeepsInv(h: string -> int, s: State, step: Step)
    requires Inv(h, s) && Enabled(h, s, step) && (step.Finish? || step.Rollback?)
    ensures Inv(h, Apply(h, s, step))
  {
    if step.Finish? {
      FinishKeepsInv(h, s, step.t);
    } else {
      RollbackKeepsInv(h, s, step.t);
    }
  }

  lemma StepKeepsInv(h: string -> int, s: State, step: Step)
    requires Inv(h, s) && Enabled(h, s, step)
    ensures Inv(h, Apply(h, s, step))
  {
    if step.LockSession? || step.ReadHolds? || step.LockCar? {
      LockStepKeepsInv(h, s, step);
    } else if step.SweepSession? || step.ChooseTarget? || step.CheckOverlap? || step.Write? {
      BodyStepKeepsInv(h, s, step);
    } else if step.SweepOldCar? || step.SweepCar? {
      SweepCarsKeepsInv(h, s, step.t, step);
    } else if step.Finish? || step.Rollback? {
      EndStepKeepsInv(h, s, step);
    } else {
      OutsideStepKeepsInv(h, s, step);
    }
  }

  lemma {:induction false} RunKeepsInv(h: string -> int, s: State, steps: seq<Step>, s': State)
    requires Inv(h, s) && Run(h, s, steps, s')
    ensures Inv(h, s')
    decreases |steps|
  {
    if steps != [] {
      StepKeepsInv(h, s, steps[0]);
      RunKeepsInv(h, Apply(h, s, steps[0]), steps[1..], s');
    }
  }

  /** The half-open range from start to end contains an instant. */
  predicate Within(x: int, start: int, end: int) {
    start <= x < end
  }

  /** For non-empty ranges the overlap query finds exactly the rows that share an instant with the wanted range. */
  lemma OverlapIsSharedInstant(start: int, end: int, row: Row)
    requires start < end && row.start < row.end
    ensures Overlaps(start, end, row) <==> exists x :: Within(x, start, end) && Within(x, row.start, row.end)
  {
    if Overlaps(start, end, row) {
      var x := if start < row.start then row.start else start;
      assert Within(x, start, end) && Within(x, row.start, row.end);
    }
  }

  lemma SharedInstantOverlaps(start: int, end: int, row: Row, x: int)
    requires Within(x, start, end) && Within(x, row.start, row.end)
    ensures Overlaps(start, end, row)
  {
  }

  /** Two holds keep one car for one instant. */
  predicate HeldTwice(rows: Table, a: nat, b: nat, x: int) {
    && a in rows && b in rows && a != b && rows[a].car == rows[b].car && IsHold(rows[a].status) && IsHold(rows[b].status)
    && Within(x, rows[a].start, rows[a].end) && Within(x, rows[b].start, rows[b].end)
  }

  /** What a transaction commits, from whatever point it ends at, holds no car twice for any instant. */
  lemma CommitIsSafe(h: string -> int, s: State, t: nat)
    requires Inv(h, s) && t < |s.txns| && s.txns[t].phase != Done
    ensures forall a: nat, b: nat, x: int :: !HeldTwice(View(s, t), a, b, x)
  {
    CommitHasNoConflict(h, s, t);
    forall a: nat, b: nat, x: int ensures !HeldTwice(View(s, t), a, b, x) {
      NotHeldTwice(View(s, t), a, b, x);
    }
  }

  lemma NotHeldTwice(rows: Table, a: nat, b: nat, x: int)
    requires NoConflictingHolds(rows)
    ensures !HeldTwice(rows, a, b, x)
  {
    if HeldTwice(rows, a, b, x) {
      SharedInstantOverlaps(rows[a].start, rows[a].end, rows[b], x);
      assert Conflict(rows, a, b);
    }
  }

  /**
   * Whatever the interleaving and whatever the hash, no car is held twice for any instant: the car locks, the
   * order sweep-then-check and the lifecycle graph suffice without the exclusion constraint.
   */
  lemma HoldsNeverConflict(h: string -> int, s: State, steps: seq<Step>, s': State)
    requires Initial(s) && Run(h, s, steps, s')
    ensures NoConflictingHolds(s'.rows)
    ensures forall a: nat, b: nat, x: int :: !HeldTwice(s'.rows, a, b, x)
  {
    RunKeepsInv(h, s, steps, s');
    forall a: nat, b: nat, x: int ensures !HeldTwice(s'.rows, a, b, x) {
      NotHeldTwice(s'.rows, a, b, x);
    }
  }

  /** The table read by t has another live hold of the wanted car for some instant of the wanted range. */
  ghost predicate SlotTaken(s: State, t: nat)
    requires t < |s.txns|
  {
    var x, view := s.txns[t], View(s, t);
    exists id, i :: id in view && x.target != Some(id) && view[id].car == x.req.car && IsHold(view[id].status)
      && view[id].expires > x.req.now && Within(i, x.req.start, x.req.end) && Within(i, view[id].start, view[id].end)
  }

  /** The check passes exactly when no live hold of the car shares an instant with the wanted range. */
  lemma CheckIsExact(h: string -> int, s: State, t: nat)
    requires t < |s.txns| && s.txns[t].phase == CarSwept && s.txns[t].req.start < s.txns[t].req.end
    requires forall id :: id in View(s, t) ==> View(s, t)[id].start < View(s, t)[id].end
    ensures Enabled(h, s, CheckOverlap(t)) <==> !SlotTaken(s, t)
  {
    var x, view := s.txns[t], View(s, t);
    forall id | id in view
      ensures Overlaps(x.req.start, x.req.end, view[id])
         <==> exists i :: Within(i, x.req.start, x.req.end) && Within(i, view[id].start, view[id].end)
    {
      OverlapIsSharedInstant(x.req.start, x.req.end, view[id]);
    }
    if SlotTaken(s, t) {
      var id, i :| id in view && x.target != Some(id) && view[id].car == x.req.car && IsHold(view[id].status)
        && view[id].expires > x.req.now && Within(i, x.req.start, x.req.end) && Within(i, view[id].start, view[id].end);
      assert Blocking(view, x.req, x.target, id);
    }
  }

  /** What a create's write buffers: a new pending row of the request, for a full window. */
  lemma CreateWrites(h: string -> int, s: State, t: nat)
    requires TxnInPlace(s, t) && Enabled(h, s, Write(t)) && s.txns[t].req.kind == Create
    ensures var q, s' := s.txns[t].req, Apply(h, s, Write(t));
            && s'.rows == s.rows && s'.txns[t].target == Some(s.nextId)
            && View(s', t) == View(s, t)[s.nextId := Row(q.session, q.car, q.start, q.end, PendingPayment, s.clock + 35 * 60 * 1000)]
  {
  }

  /** What a rehold's write buffers: its locked row moved to the request, for a full window. */
  lemma ReholdWrites(h: string -> int, s: State, t: nat, id: nat)
    requires TxnInPlace(s, t) && Enabled(h, s, Write(t)) && s.txns[t].req.kind == Rehold && s.txns[t].target == Some(id)
    ensures var q, s' := s.txns[t].req, Apply(h, s, Write(t));
            && s'.rows == s.rows && s'.txns[t].target == Some(id)
            && View(s', t) == View(s, t)[id := Row(q.session, q.car, q.start, q.end, PendingPayment, s.clock + 35 * 60 * 1000)]
  {
    assert WriteOk(s.txns[t], s.rows, id);
  }

  /** A commit writes exactly what the transaction saw. */
  lemma CommitMeans(h: string -> int, s: State, t: nat)
    requires Enabled(h, s, Finish(t))
    ensures Apply(h, s, Finish(t)).rows == View(s, t)
    ensures forall id :: id in s.rows && id !in s.txns[t].writes ==> View(s, t)[id] == s.rows[id]
  {
  }

  /** Until its commit nobody else sees what a transaction does, and a rollback leaves no trace but its freed locks. */
  lemma OnlyCommitsShow(h: string -> int, s: State, step: Step)
    requires Enabled(h, s, step) && !step.Finish? && !step.Lifecycle? && !step.InsertConfirmed?
    ensures Apply(h, s, step).rows == s.rows
    ensures step.Rollback? ==> View(Apply(h, s, step), step.t) == s.rows && Apply(h, s, step).txns[step.t].phase == Done
    ensures step.Rollback? ==> forall key :: key in Apply(h, s, step).locks <==> key in s.locks && s.locks[key] != step.t
  {
  }

  /** What the other writers leave: one row's status and expiry, or one new row. */
  lemma OthersWrite(h: string -> int, s: State, step: Step)
    requires Enabled(h, s, step)
    ensures step.Lifecycle? ==>
              && step.id in s.rows && Apply(h, s, step).rows.Keys == s.rows.Keys
              && Apply(h, s, step).rows[step.id] == s.rows[step.id].(status := step.to, expires := step.newExpiry)
              && forall id :: id in s.rows && id != step.id ==> Apply(h, s, step).rows[id] == s.rows[id]
    ensures step.InsertConfirmed? && s.nextId !in s.rows ==>
              && Apply(h, s, step).rows == s.rows[s.nextId := step.row] && step.row.status == Confirmed
  {
  }

  /** A record as the invariant has it, with every row id still below the next. */
  ghost predicate TxnInPlace(s: State, t: nat) {
    t < |s.txns| && TxnOk(s.txns[t], s.rows, s.clock) && s.nextId !in View(s, t)
  }

  /** What a sweep leaves: the rows it takes are expired as of the caller's time, the others are as before. */
  lemma SweepMeans(view: Table, car: int, session: string, now: int, id: nat)
    requires id in view
    ensures var byCar := view + Expire(view, StaleOfCar(view, car, now), now);
            byCar[id] == if view[id].car == car && IsHold(view[id].status) && view[id].expires <= now
                         then view[id].(status := Status.Expired, expires := now) else view[id]
    ensures var bySession := view + Expire(view, StaleOfSession(view, session, now), now);
            bySession[id] == if view[id].session == session && IsHold(view[id].status) && view[id].expires <= now
                             then view[id].(status := Status.Expired, expires := now) else view[id]
  {
  }

  /** A commit moves every existing row along the lifecycle graph or not at all. */
  lemma CommitFollowsLifecycle(h: string -> int, s: State, t: nat, id: nat)
    requires Inv(h, s) && Enabled(h, s, Finish(t)) && id in View(s, t)
    ensures id in s.rows ==>
              && Allowed(s.rows[id].status, View(s, t)[id].status) && s.rows[id].session == View(s, t)[id].session
              && (SamePlace(s.rows[id], View(s, t)[id]) || s.rows[id].status == View(s, t)[id].status == PendingPayment)
    ensures id !in s.rows ==> View(s, t)[id].status == PendingPayment
  {
    var x := s.txns[t];
    assert TxnOk(x, s.rows, s.clock);
    if id in x.writes {
      assert WriteOk(x, s.rows, id);
      if x.phase == Written && x.target == Some(id) {
        assert x.writes[id].status == PendingPayment;
      }
    }
  }

  /**
   * In every interleaving each reservation lives a lifecycle: rows never vanish, enter as new rows may,
   * change status only along the graph, keep their session, and are moved to another car or range
   * only while pending payment.
   */
  lemma RowsLiveTheLifecycle(h: string -> int, s: State, step: Step, id: nat)
    requires Inv(h, s) && Enabled(h, s, step)
    ensures var rows, rows' := s.rows, Apply(h, s, step).rows;
            && (id in rows ==>
                  && id in rows' && Allowed(rows[id].status, rows'[id].status) && rows'[id].session == rows[id].session
                  && (SamePlace(rows[id], rows'[id]) || rows[id].status == rows'[id].status == PendingPayment))
            && (id !in rows && id in rows' ==> CanTransition(None, Known(rows'[id].status)))
  {
    if step.Finish? && id in View(s, step.t) {
      CommitFollowsLifecycle(h, s, step.t, id);
    }
  }
}
