/**
 * One hold per session. A create expires its session's stale holds against the time its caller read,
 * then looks for an active hold against a fresh clock; a hold that lapses between the two is seen by
 * neither. A session gets two holds exactly when a create overlooks a hold in this way, commits its own,
 * and the overlooked one is still a hold then.
 */
module HoldSession {
  import opened Results
  import opened ReservationStatus
  import opened LockOrder
  import opened HoldProtocol
  import opened HoldSafety
  import opened HoldProgress

  /** After the sweep the session has no hold that was already stale when the caller read the clock. */
  ghost predicate SessionSweptOk(x: Txn, view: Table) {
    x.phase == SessionSwept ==>
      forall id :: id in view && view[id].session == x.req.session ==> !Stale(view[id], x.req.now)
  }

  ghost predicate SessionInv(s: State) {
    forall t :: 0 <= t < |s.txns| ==> SessionSweptOk(s.txns[t], View(s, t))
  }

  /** A session hold that appears in x's view was there before, no nearer to its expiry than the clock. */
  lemma SessionRowStable(x: Txn, rows: Table, clock: int, rows': Table, id: nat)
    requires Benign(x, rows, rows', clock) && Reached(x.phase, SessionLocked)
    requires id in rows' + x.writes
    requires (rows' + x.writes)[id].session == x.req.session && IsHold((rows' + x.writes)[id].status)
    ensures var view, view' := rows + x.writes, rows' + x.writes;
            && id in view && view[id].session == x.req.session && IsHold(view[id].status)
            && (view'[id].expires == view[id].expires || view'[id].expires > clock)
  {
    if id !in x.writes { assert RowBenign(x, rows, rows', clock, id); }
  }

  lemma SessionStable(x: Txn, rows: Table, clock: int, rows': Table)
    requires x.req.now <= clock && Benign(x, rows, rows', clock) && SessionSweptOk(x, rows + x.writes)
    ensures SessionSweptOk(x, rows' + x.writes)
  {
    var view' := rows' + x.writes;
    forall id | id in view' && view'[id].session == x.req.session && IsHold(view'[id].status) && x.phase == SessionSwept
      ensures view'[id].expires > x.req.now
    {
      SessionRowStable(x, rows, clock, rows', id);
    }
  }

  /** Each committed change is harmless to every transaction it is not the commit of. */
  lemma StepBenign(h: string -> int, s: State, step: Step, u: nat)
    requires Inv(h, s) && Enabled(h, s, step) && u < |s.txns| && !(step.Finish? && step.t == u)
    ensures Benign(s.txns[u], s.rows, Apply(h, s, step).rows, s.clock) && s.txns[u].req.now <= s.clock
  {
    assert TxnOk(s.txns[u], s.rows, s.clock);
    if step.Finish? {
      CommitBenign(h, s, step.t, u);
    } else if step.Lifecycle? {
      LifecycleBenign(h, s, step.id, step.to, step.newExpiry, u);
    } else if step.InsertConfirmed? {
      InsertBenign(h, s, step.row, u);
    } else {
      SameRowsBenign(s.txns[u], s.rows, s.clock);
    }
  }

  lemma SameRowsBenign(x: Txn, rows: Table, clock: int)
    requires TxnOk(x, rows, clock)
    ensures Benign(x, rows, rows, clock)
  {
  }

  lemma SweptSessionOk(x: Txn, rows: Table, ids: set<nat>)
    requires ids <= (rows + x.writes).Keys && StaleOfSession(rows + x.writes, x.req.session, x.req.now) <= ids
    ensures var x' := Swept(x, rows + x.writes, ids, SessionSwept); SessionSweptOk(x', rows + x'.writes)
  {
  }

  /** The new record of a transaction that takes a step of its own. */
  lemma OwnRecordKeepsSession(h: string -> int, s: State, step: Step, t: nat)
    requires Enabled(h, s, step) && !Outside(step) && step.t == t
    ensures t < |s.txns| && SessionSweptOk(Apply(h, s, step).txns[t], View(Apply(h, s, step), t))
  {
    if step.SweepSession? {
      var x := s.txns[t];
      var ids := StaleOfSession(View(s, t), x.req.session, x.req.now);
      SweptSessionOk(x, s.rows, ids);
      assert Apply(h, s, step) == Put(s, t, Swept(x, View(s, t), ids, SessionSwept));
    }
  }

  /** Steps that are no transaction's own. */
  predicate Outside(step: Step) {
    step.Begin? || step.Lifecycle? || step.InsertConfirmed? || step.Tick?
  }

  lemma OtherRecordsStay(h: string -> int, s: State, step: Step, u: nat)
    requires Enabled(h, s, step) && u < |s.txns| && (Outside(step) || step.t != u)
    ensures u < |Apply(h, s, step).txns| && Apply(h, s, step).txns[u] == s.txns[u]
  {
  }

  lemma NewRecordBegins(h: string -> int, s: State, step: Step, u: nat)
    requires Enabled(h, s, step) && |s.txns| <= u < |Apply(h, s, step).txns|
    ensures Apply(h, s, step).txns[u].phase == Begun
  {
  }

  lemma RecordStaysSwept(h: string -> int, s: State, step: Step, u: nat)
    requires Inv(h, s) && SessionInv(s) && Enabled(h, s, step) && u < |s.txns| && (Outside(step) || step.t != u)
    ensures var s' := Apply(h, s, step); u < |s'.txns| && SessionSweptOk(s'.txns[u], View(s', u))
  {
    OtherRecordsStay(h, s, step, u);
    StepBenign(h, s, step, u);
    SessionStable(s.txns[u], s.rows, s.clock, Apply(h, s, step).rows);
  }

  lemma StepKeepsSession(h: string -> int, s: State, step: Step)
    requires Inv(h, s) && SessionInv(s) && Enabled(h, s, step)
    ensures SessionInv(Apply(h, s, step))
  {
    var s' := Apply(h, s, step);
    forall u: nat | u < |s'.txns| ensures SessionSweptOk(s'.txns[u], View(s', u)) {
      if u >= |s.txns| {
        NewRecordBegins(h, s, step, u);
      } else if !Outside(step) && step.t == u {
        OwnRecordKeepsSession(h, s, step, u);
      } else {
        RecordStaysSwept(h, s, step, u);
      }
    }
  }

  // ---------- What each commit does ----------

  predicate HoldOf(view: Table, session: string, id: nat) {
    id in view && view[id].session == session && IsHold(view[id].status)
  }

  /** Another hold of its session than the one it writes, as t sees the table. */
  predicate OtherHold(s: State, t: nat, id: nat)
    requires t < |s.txns|
  {
    s.txns[t].target != Some(id) && HoldOf(View(s, t), s.txns[t].req.session, id)
  }

  /** The commit of a create's own row beside another hold of its session. */
  ghost predicate Doubles(s: State, step: Step) {
    && step.Finish? && step.t < |s.txns| && s.txns[step.t].phase == Written && s.txns[step.t].req.kind == Create
    && exists id :: OtherHold(s, step.t, id)
  }

  lemma ViewHolds(h: string -> int, s: State, t: nat, id: nat)
    requires Inv(h, s) && t < |s.txns| && s.txns[t].phase != Done && id in View(s, t) && IsHold(View(s, t)[id].status)
    ensures (s.txns[t].phase == Written && s.txns[t].req.kind == Create && s.txns[t].target == Some(id))
         || (id in s.rows && IsHold(s.rows[id].status) && s.rows[id].session == View(s, t)[id].session)
  {
    var x := s.txns[t];
    assert TxnOk(x, s.rows, s.clock);
    if id in x.writes { assert WriteOk(x, s.rows, id); }
  }

  lemma TargetIsHold(h: string -> int, s: State, t: nat)
    requires Inv(h, s) && t < |s.txns| && s.txns[t].phase == Written
    ensures s.txns[t].target.Some? && s.txns[t].target.value in View(s, t)
    ensures var row := View(s, t)[s.txns[t].target.value]; row.session == s.txns[t].req.session && IsHold(row.status)
  {
    assert TxnOk(s.txns[t], s.rows, s.clock);
  }

  /** A commit breaks uniqueness exactly when it doubles; every other commit keeps it. */
  lemma CommitDoublesExactly(h: string -> int, s: State, t: nat)
    requires Inv(h, s) && Enabled(h, s, Finish(t)) && OneHoldPerSession(s.rows)
    ensures OneHoldPerSession(Apply(h, s, Finish(t)).rows) <==> !Doubles(s, Finish(t))
  {
    var x, view := s.txns[t], View(s, t);
    if Doubles(s, Finish(t)) {
      var id :| OtherHold(s, t, id);
      TargetIsHold(h, s, t);
    } else {
      forall a, b | a in view && b in view && a != b && IsHold(view[a].status) && IsHold(view[b].status)
        ensures view[a].session != view[b].session
      {
        ViewHolds(h, s, t, a);
        ViewHolds(h, s, t, b);
        if x.phase == Written && x.req.kind == Create {
          TargetIsHold(h, s, t);
          assert !OtherHold(s, t, a) && !OtherHold(s, t, b);
        }
      }
    }
  }

  lemma OutsideKeepsOneHold(h: string -> int, s: State, step: Step)
    requires Inv(h, s) && Enabled(h, s, step) && OneHoldPerSession(s.rows) && !step.Finish?
    ensures OneHoldPerSession(Apply(h, s, step).rows)
  {
    if step.Lifecycle? { assert IsHold(step.to) ==> IsHold(s.rows[step.id].status); }
  }

  lemma StepDoublesExactly(h: string -> int, s: State, step: Step)
    requires Inv(h, s) && Enabled(h, s, step) && OneHoldPerSession(s.rows)
    ensures OneHoldPerSession(Apply(h, s, step).rows) <==> !Doubles(s, step)
  {
    if step.Finish? { CommitDoublesExactly(h, s, step.t); } else { OutsideKeepsOneHold(h, s, step); }
  }

  // ---------- Where the other hold comes from ----------

  /** A hold of its session that t overlooks as it chooses: live when its caller read the clock, lapsed by now. */
  predicate Overlooked(s: State, t: nat, id: nat) {
    && t < |s.txns| && HoldOf(View(s, t), s.txns[t].req.session, id)
    && s.txns[t].req.now < View(s, t)[id].expires <= s.clock
  }

  predicate PastChoice(x: Txn) {
    x.req.kind == Create && Reached(x.phase, Targeted)
  }

  /** When a create finds no active hold of its session, the session's holds are exactly the overlooked ones. */
  lemma LapseIsExact(h: string -> int, s: State, t: nat, id: nat)
    requires SessionInv(s) && Enabled(h, s, ChooseTarget(t)) && s.txns[t].req.kind == Create
    ensures HoldOf(View(s, t), s.txns[t].req.session, id) <==> Overlooked(s, t, id)
  {
    var x, view := s.txns[t], View(s, t);
    assert SessionSweptOk(x, view);
    if HoldOf(view, x.req.session, id) {
      assert !Stale(view[id], x.req.now) && !ActiveOf(view, x.req.session, s.clock, id);
    }
  }

  lemma SweepShape(h: string -> int, s: State, t: nat)
    requires Enabled(h, s, SweepCar(t))
    ensures var view := View(s, t);
            var x' := Swept(s.txns[t], view, StaleOfCar(view, s.txns[t].req.car, s.txns[t].req.now), CarSwept);
            Apply(h, s, SweepCar(t)) == Put(s, t, x') && View(Apply(h, s, SweepCar(t)), t) == s.rows + x'.writes
  {
  }

  lemma SweepBack(h: string -> int, s: State, t: nat, id: nat)
    requires Enabled(h, s, SweepCar(t)) && OtherHold(Apply(h, s, SweepCar(t)), t, id)
    ensures OtherHold(s, t, id)
  {
    SweepShape(h, s, t);
  }

  lemma WriteBack(h: string -> int, s: State, t: nat, id: nat)
    requires Enabled(h, s, Write(t)) && s.txns[t].req.kind == Create && s.txns[t].target == None
    requires OtherHold(Apply(h, s, Write(t)), t, id)
    ensures OtherHold(s, t, id)
  {
  }

  lemma PhaseBack(h: string -> int, s: State, step: Step, t: nat)
    requires Enabled(h, s, step) && !Outside(step) && step.t == t && !step.ChooseTarget? && t < |s.txns|
    requires PastChoice(Apply(h, s, step).txns[t])
    ensures PastChoice(s.txns[t]) && (step.SweepCar? || step.CheckOverlap? || step.Write?)
  {
  }

  /** Own steps past the choice add no other hold of the session. */
  lemma OwnStepBack(h: string -> int, s: State, step: Step, t: nat, id: nat)
    requires Inv(h, s) && Enabled(h, s, step) && !Outside(step) && step.t == t && !step.ChooseTarget? && t < |s.txns|
    requires PastChoice(Apply(h, s, step).txns[t]) && OtherHold(Apply(h, s, step), t, id)
    ensures PastChoice(s.txns[t]) && OtherHold(s, t, id)
  {
    assert TxnOk(s.txns[t], s.rows, s.clock);
    PhaseBack(h, s, step, t);
    if step.SweepCar? {
      SweepBack(h, s, t, id);
    } else if step.Write? {
      WriteBack(h, s, t, id);
    }
  }

  /** Nobody else brings a hold of a session that x has locked. */
  lemma OthersBringNone(x: Txn, rows: Table, clock: int, rows': Table, id: nat)
    requires Benign(x, rows, rows', clock) && Reached(x.phase, SessionLocked) && HoldOf(rows' + x.writes, x.req.session, id)
    ensures HoldOf(rows + x.writes, x.req.session, id)
  {
    SessionRowStable(x, rows, clock, rows', id);
  }

  lemma OtherStepBack(s: State, s': State, t: nat, id: nat)
    requires t < |s.txns| && t < |s'.txns| && s'.txns[t] == s.txns[t] && PastChoice(s.txns[t])
    requires Benign(s.txns[t], s.rows, s'.rows, s.clock) && OtherHold(s', t, id)
    ensures OtherHold(s, t, id)
  {
    OthersBringNone(s.txns[t], s.rows, s.clock, s'.rows, id);
  }

  /** One step back, another hold of a create past its choice was there already, or is overlooked just now. */
  lemma OneStepBack(h: string -> int, s: State, step: Step, t: nat, id: nat)
    requires Inv(h, s) && SessionInv(s) && Enabled(h, s, step) && t < |Apply(h, s, step).txns|
    requires PastChoice(Apply(h, s, step).txns[t]) && OtherHold(Apply(h, s, step), t, id)
    ensures t < |s.txns|
    ensures (step == ChooseTarget(t) && s.txns[t].req.kind == Create && Overlooked(s, t, id))
         || (PastChoice(s.txns[t]) && OtherHold(s, t, id))
  {
    if t >= |s.txns| { NewRecordBegins(h, s, step, t); }
    if Outside(step) || step.t != t {
      OtherRecordsStay(h, s, step, t);
      StepBenign(h, s, step, t);
      OtherStepBack(s, Apply(h, s, step), t, id);
    } else if step.ChooseTarget? {
      LapseIsExact(h, s, t, id);
    } else {
      OwnStepBack(h, s, step, t, id);
    }
  }

  // ---------- Whole runs ----------

  ghost predicate Legal(h: string -> int, s: State, steps: seq<Step>)
    decreases |steps|
  {
    steps != [] ==> Enabled(h, s, steps[0]) && Legal(h, Apply(h, s, steps[0]), steps[1..])
  }

  /** The state after the first k steps. */
  ghost function After(h: string -> int, s: State, steps: seq<Step>, k: nat): State
    requires Legal(h, s, steps) && k <= |steps|
    decreases k
  {
    if k == 0 then s else After(h, Apply(h, s, steps[0]), steps[1..], k - 1)
  }

  lemma {:induction false} NextAfter(h: string -> int, s: State, steps: seq<Step>, k: nat)
    requires Legal(h, s, steps) && k < |steps|
    ensures Enabled(h, After(h, s, steps, k), steps[k])
    ensures After(h, s, steps, k + 1) == Apply(h, After(h, s, steps, k), steps[k])
    decreases k
  {
    if k > 0 {
      NextAfter(h, Apply(h, s, steps[0]), steps[1..], k - 1);
    } else {
      assert After(h, s, steps, 1) == After(h, Apply(h, s, steps[0]), steps[1..], 0);
    }
  }

  lemma {:induction false} AfterKeepsInv(h: string -> int, s: State, steps: seq<Step>, k: nat)
    requires Inv(h, s) && SessionInv(s) && Legal(h, s, steps) && k <= |steps|
    ensures Inv(h, After(h, s, steps, k)) && SessionInv(After(h, s, steps, k))
    decreases k
  {
    if k > 0 {
      StepKeepsInv(h, s, steps[0]);
      StepKeepsSession(h, s, steps[0]);
      AfterKeepsInv(h, Apply(h, s, steps[0]), steps[1..], k - 1);
    }
  }

  lemma InitialInv(h: string -> int, s: State)
    requires Initial(s)
    ensures Inv(h, s) && SessionInv(s)
  {
  }

  lemma {:induction false} OneHoldUpTo(h: string -> int, s: State, steps: seq<Step>, k: nat)
    requires Initial(s) && Legal(h, s, steps) && k <= |steps|
    requires forall j :: 0 <= j < k ==> !Doubles(After(h, s, steps, j), steps[j])
    ensures OneHoldPerSession(After(h, s, steps, k).rows)
  {
    if k > 0 {
      OneHoldUpTo(h, s, steps, k - 1);
      InitialInv(h, s);
      AfterKeepsInv(h, s, steps, k - 1);
      NextAfter(h, s, steps, k - 1);
      StepDoublesExactly(h, After(h, s, steps, k - 1), steps[k - 1]);
    }
  }

  /** Every session has one hold at every point of a run iff no step of it commits a create beside another hold. */
  lemma UniquenessOverRuns(h: string -> int, s: State, steps: seq<Step>)
    requires Initial(s) && Legal(h, s, steps)
    ensures (forall k :: 0 <= k <= |steps| ==> OneHoldPerSession(After(h, s, steps, k).rows))
       <==> (forall k :: 0 <= k < |steps| ==> !Doubles(After(h, s, steps, k), steps[k]))
  {
    if forall k :: 0 <= k < |steps| ==> !Doubles(After(h, s, steps, k), steps[k]) {
      forall k | 0 <= k <= |steps| ensures OneHoldPerSession(After(h, s, steps, k).rows) { OneHoldUpTo(h, s, steps, k); }
    } else {
      var k :| 0 <= k < |steps| && Doubles(After(h, s, steps, k), steps[k]);
      InitialInv(h, s);
      AfterKeepsInv(h, s, steps, k);
      NextAfter(h, s, steps, k);
      if OneHoldPerSession(After(h, s, steps, k).rows) {
        StepDoublesExactly(h, After(h, s, steps, k), steps[k]);
        assert !OneHoldPerSession(After(h, s, steps, k + 1).rows);
      }
    }
  }

  ghost predicate OtherAfter(h: string -> int, s: State, steps: seq<Step>, k: nat, t: nat, id: nat)
    requires Legal(h, s, steps) && k <= |steps|
  {
    t < |After(h, s, steps, k).txns| && PastChoice(After(h, s, steps, k).txns[t]) && OtherHold(After(h, s, steps, k), t, id)
  }

  ghost predicate OverlookedAt(h: string -> int, s: State, steps: seq<Step>, j: nat, t: nat, id: nat)
    requires Legal(h, s, steps) && j < |steps|
  {
    steps[j] == ChooseTarget(t) && Overlooked(After(h, s, steps, j), t, id)
  }

  lemma BackOne(h: string -> int, s: State, steps: seq<Step>, k: nat, t: nat, id: nat)
    requires Initial(s) && Legal(h, s, steps) && k < |steps| && OtherAfter(h, s, steps, k + 1, t, id)
    ensures OverlookedAt(h, s, steps, k, t, id) || OtherAfter(h, s, steps, k, t, id)
  {
    InitialInv(h, s);
    AfterKeepsInv(h, s, steps, k);
    NextAfter(h, s, steps, k);
    OneStepBack(h, After(h, s, steps, k), steps[k], t, id);
  }

  /** The other hold of a create past its choice was overlooked as it chose. */
  lemma {:induction false} OtherHoldsWereOverlooked(h: string -> int, s: State, steps: seq<Step>, k: nat, t: nat, id: nat)
    requires Initial(s) && Legal(h, s, steps) && k <= |steps| && OtherAfter(h, s, steps, k, t, id)
    ensures exists j :: 0 <= j < k && OverlookedAt(h, s, steps, j, t, id)
  {
    if k > 0 {
      BackOne(h, s, steps, k - 1, t, id);
      if OtherAfter(h, s, steps, k - 1, t, id) {
        OtherHoldsWereOverlooked(h, s, steps, k - 1, t, id);
      }
    }
  }

  /** At step j a create overlooks a hold, at step k it commits its own, and the overlooked one is still a hold. */
  ghost predicate Lapse(h: string -> int, s: State, steps: seq<Step>, j: nat, k: nat, t: nat, id: nat)
    requires Legal(h, s, steps) && j < k < |steps|
  {
    && OverlookedAt(h, s, steps, j, t, id)
    && steps[k] == Finish(t) && t < |After(h, s, steps, k).txns|
    && After(h, s, steps, k).txns[t].phase == Written && After(h, s, steps, k).txns[t].req.kind == Create
    && OtherHold(After(h, s, steps, k), t, id)
  }

  /**
   * The exact condition over whole runs: some session has two holds at some point iff some create overlooks a
   * hold that lapsed between its caller's clock read and its own, and commits while that is still a hold.
   */
  lemma SessionsDoubleExactly(h: string -> int, s: State, steps: seq<Step>)
    requires Initial(s) && Legal(h, s, steps)
    ensures (exists k :: 0 <= k <= |steps| && !OneHoldPerSession(After(h, s, steps, k).rows))
       <==> exists j: nat, k: nat, t: nat, id: nat :: j < k < |steps| && Lapse(h, s, steps, j, k, t, id)
  {
    UniquenessOverRuns(h, s, steps);
    if k: nat :| k < |steps| && Doubles(After(h, s, steps, k), steps[k]) {
      var t := steps[k].t;
      var id: nat :| OtherHold(After(h, s, steps, k), t, id);
      assert OtherAfter(h, s, steps, k, t, id);
      OtherHoldsWereOverlooked(h, s, steps, k, t, id);
      var j: nat :| j < k && OverlookedAt(h, s, steps, j, t, id);
      assert Lapse(h, s, steps, j, k, t, id);
    }
    if j: nat, k: nat, t: nat, id: nat :| j < k < |steps| && Lapse(h, s, steps, j, k, t, id) {
      assert Doubles(After(h, s, steps, k), steps[k]);
    }
  }

  /** So a run in which no create overlooks a hold keeps one hold per session throughout. */
  lemma SessionsHaveOneHold(h: string -> int, s: State, steps: seq<Step>, k: nat)
    requires Initial(s) && Legal(h, s, steps) && k <= |steps|
    requires forall j: nat, t: nat, id: nat :: j < |steps| ==> !OverlookedAt(h, s, steps, j, t, id)
    ensures OneHoldPerSession(After(h, s, steps, k).rows)
  {
    SessionsDoubleExactly(h, s, steps);
  }

  // ---------- What the choice decides ----------

  /** Some active hold of another row stands in the wanted slot. */
  ghost predicate SlotBlocked(s: State, t: nat)
    requires t < |s.txns|
  {
    exists id :: Blocking(View(s, t), s.txns[t].req, None, id)
  }

  /** The rest of a create's program from its choice on, when nobody comes between. */
  function Alone(t: nat, blocked: bool): seq<Step> {
    if blocked then [ChooseTarget(t), SweepCar(t), Finish(t)]
    else [ChooseTarget(t), SweepCar(t), CheckOverlap(t), Write(t), Finish(t)]
  }

  lemma RunCons(h: string -> int, s: State, step: Step, rest: seq<Step>, end: State)
    requires Enabled(h, s, step) && Run(h, Apply(h, s, step), rest, end)
    ensures Run(h, s, [step] + rest, end)
  {
    assert ([step] + rest)[1..] == rest;
  }

  ghost predicate CreateAt(h: string -> int, s: State, t: nat, phase: Phase) {
    && Inv(h, s) && t < |s.txns| && s.txns[t].req.kind == Create && s.txns[t].phase == phase
    && OneHoldPerSession(s.rows)
  }

  /** The request has become a new pending row, live for a full window. */
  ghost predicate TookSlot(rows: Table, q: Request, clock: int, rows': Table) {
    exists id :: id !in rows && id in rows'
      && rows'[id] == Row(q.session, q.car, q.start, q.end, PendingPayment, clock + 35 * 60 * 1000)
  }

  ghost predicate SameOutside(s: State, s': State, t: nat)
    requires t < |s.txns| && t < |s'.txns|
  {
    s'.rows == s.rows && s'.clock == s.clock && s'.txns[t].req == s.txns[t].req
  }

  lemma AloneChoose(h: string -> int, s: State, t: nat)
    requires CreateAt(h, s, t, SessionSwept) && SessionInv(s) && Enabled(h, s, ChooseTarget(t))
    ensures var s' := Apply(h, s, ChooseTarget(t));
            && CreateAt(h, s', t, Targeted) && View(s', t) == View(s, t) && SameOutside(s, s', t)
            && s'.txns[t].target == None
    ensures forall id :: HoldOf(View(s, t), s.txns[t].req.session, id) ==> !Stale(View(s, t)[id], s.txns[t].req.now)
  {
    StepKeepsInv(h, s, ChooseTarget(t));
    assert SessionSweptOk(s.txns[t], View(s, t));
  }

  /** The sweep of the wanted car removes neither a hold of the session nor one that blocks the slot. */
  lemma SweepSpares(x: Txn, rows: Table, q: Request)
    requires q == x.req
    requires forall id :: HoldOf(rows + x.writes, q.session, id) ==> !Stale((rows + x.writes)[id], q.now)
    ensures var view := rows + x.writes;
            var view' := rows + Swept(x, view, StaleOfCar(view, q.car, q.now), CarSwept).writes;
            && (forall id :: HoldOf(view', q.session, id) <==> HoldOf(view, q.session, id))
            && (forall id :: Blocking(view', q, None, id) <==> Blocking(view, q, None, id))
  {
    var view := rows + x.writes;
    var ids := StaleOfCar(view, q.car, q.now);
    var view' := rows + Swept(x, view, ids, CarSwept).writes;
    assert view'.Keys == view.Keys;
    assert forall id :: id in view' ==> view'[id] == if id in ids then Expire(view, ids, q.now)[id] else view[id];
  }

  lemma AloneSweep(h: string -> int, s: State, t: nat)
    requires CreateAt(h, s, t, Targeted) && s.txns[t].target == None
    requires forall id :: HoldOf(View(s, t), s.txns[t].req.session, id) ==> !Stale(View(s, t)[id], s.txns[t].req.now)
    ensures Enabled(h, s, SweepCar(t))
    ensures var s' := Apply(h, s, SweepCar(t));
            && CreateAt(h, s', t, CarSwept) && SameOutside(s, s', t) && s'.txns[t].target == None
            && (forall id :: HoldOf(View(s', t), s.txns[t].req.session, id) <==> HoldOf(View(s, t), s.txns[t].req.session, id))
            && (forall id :: Blocking(View(s', t), s.txns[t].req, None, id) <==> Blocking(View(s, t), s.txns[t].req, None, id))
  {
    SweepCarReady(h, s, t);
    SweepShape(h, s, t);
    SweepSpares(s.txns[t], s.rows, s.txns[t].req);
    StepKeepsInv(h, s, SweepCar(t));
  }

  lemma AloneCheck(h: string -> int, s: State, t: nat)
    requires CreateAt(h, s, t, CarSwept) && Enabled(h, s, CheckOverlap(t)) && s.txns[t].target == None
    ensures var s' := Apply(h, s, CheckOverlap(t));
            CreateAt(h, s', t, Cleared) && View(s', t) == View(s, t) && SameOutside(s, s', t) && s'.txns[t].target == None
  {
    StepKeepsInv(h, s, CheckOverlap(t));
  }

  lemma InsertShape(h: string -> int, s: State, t: nat)
    requires Enabled(h, s, Write(t)) && s.txns[t].req.kind == Create && s.txns[t].target == None && s.nextId !in View(s, t)
    ensures var s' := Apply(h, s, Write(t));
            && s'.rows == s.rows && |s'.txns| == |s.txns| && s'.txns[t].phase == Written && s'.txns[t].req == s.txns[t].req
            && forall id :: OtherHold(s', t, id) <==> HoldOf(View(s, t), s.txns[t].req.session, id)
  {
  }

  lemma AloneInsert(h: string -> int, s: State, t: nat)
    requires CreateAt(h, s, t, Cleared) && s.txns[t].target == None
    ensures Enabled(h, s, Write(t))
    ensures var s' := Apply(h, s, Write(t));
            && CreateAt(h, s', t, Written) && TookSlot(s.rows, s.txns[t].req, s.clock, View(s', t))
            && forall id :: OtherHold(s', t, id) <==> HoldOf(View(s, t), s.txns[t].req.session, id)
  {
    assert s.nextId !in View(s, t);
    CreateWrites(h, s, t);
    InsertShape(h, s, t);
    StepKeepsInv(h, s, Write(t));
  }

  lemma AloneCommit(h: string -> int, s: State, t: nat) returns (end: State)
    requires CreateAt(h, s, t, Written)
    ensures Run(h, s, [Finish(t)], end) && (OneHoldPerSession(end.rows) <==> forall id :: !OtherHold(s, t, id))
    ensures end.rows == View(s, t)
  {
    StepDoublesExactly(h, s, Finish(t));
    end := Apply(h, s, Finish(t));
    RunCons(h, s, Finish(t), [], end);
    assert [Finish(t)] + [] == [Finish(t)];
  }

  /** From the passed check on, the create writes and commits, and doubles exactly beside another hold. */
  lemma AloneWrite(h: string -> int, s: State, t: nat) returns (end: State)
    requires CreateAt(h, s, t, Cleared) && s.txns[t].target == None
    ensures Run(h, s, [Write(t), Finish(t)], end)
    ensures OneHoldPerSession(end.rows) <==> forall id :: !HoldOf(View(s, t), s.txns[t].req.session, id)
    ensures TookSlot(s.rows, s.txns[t].req, s.clock, end.rows)
  {
    AloneInsert(h, s, t);
    end := AloneCommit(h, Apply(h, s, Write(t)), t);
    RunCons(h, s, Write(t), [Finish(t)], end);
    assert [Write(t)] + [Finish(t)] == [Write(t), Finish(t)];
  }

  lemma AloneBlocked(h: string -> int, s: State, t: nat) returns (end: State)
    requires CreateAt(h, s, t, CarSwept) && Enabled(h, s, Finish(t))
    ensures Run(h, s, [Finish(t)], end) && OneHoldPerSession(end.rows)
    ensures !TookSlot(s.rows, s.txns[t].req, s.clock, end.rows)
  {
    forall id | id in View(s, t) && IsHold(View(s, t)[id].status) ensures id in s.rows { ViewHolds(h, s, t, id); }
    StepDoublesExactly(h, s, Finish(t));
    end := Apply(h, s, Finish(t));
    RunCons(h, s, Finish(t), [], end);
  }

  lemma AloneFromSweep(h: string -> int, s: State, t: nat, blocked: bool) returns (end: State)
    requires CreateAt(h, s, t, CarSwept) && s.txns[t].target == None
    requires blocked == exists id :: Blocking(View(s, t), s.txns[t].req, None, id)
    ensures Run(h, s, Alone(t, blocked)[2..], end)
    ensures OneHoldPerSession(end.rows) <==> blocked || forall id :: !HoldOf(View(s, t), s.txns[t].req.session, id)
    ensures TookSlot(s.rows, s.txns[t].req, s.clock, end.rows) <==> !blocked
  {
    if blocked {
      end := AloneBlocked(h, s, t);
      assert Alone(t, true)[2..] == [Finish(t)];
    } else {
      AloneCheck(h, s, t);
      end := AloneWrite(h, Apply(h, s, CheckOverlap(t)), t);
      RunCons(h, s, CheckOverlap(t), [Write(t), Finish(t)], end);
      assert Alone(t, false)[2..] == [CheckOverlap(t)] + [Write(t), Finish(t)];
    }
  }

  /**
   * What can be told at the choice: left alone, a create gets its hold iff no active hold stands in the wanted
   * slot, and its session ends with two iff it also overlooks a lapsed one there.
   */
  lemma ChoiceDecides(h: string -> int, s: State, t: nat) returns (end: State)
    requires Inv(h, s) && SessionInv(s) && OneHoldPerSession(s.rows)
    requires Enabled(h, s, ChooseTarget(t)) && s.txns[t].req.kind == Create
    ensures Run(h, s, Alone(t, SlotBlocked(s, t)), end)
    ensures TookSlot(s.rows, s.txns[t].req, s.clock, end.rows) <==> !SlotBlocked(s, t)
    ensures !OneHoldPerSession(end.rows) <==> (exists id :: Overlooked(s, t, id)) && !SlotBlocked(s, t)
  {
    end := AloneFromChoice(h, s, t, SlotBlocked(s, t));
    forall id ensures HoldOf(View(s, t), s.txns[t].req.session, id) <==> Overlooked(s, t, id) {
      LapseIsExact(h, s, t, id);
    }
  }

  lemma AloneFromChoice(h: string -> int, s: State, t: nat, blocked: bool) returns (end: State)
    requires CreateAt(h, s, t, SessionSwept) && SessionInv(s) && Enabled(h, s, ChooseTarget(t))
    requires blocked == exists id :: Blocking(View(s, t), s.txns[t].req, None, id)
    ensures Run(h, s, Alone(t, blocked), end)
    ensures OneHoldPerSession(end.rows) <==> blocked || forall id :: !HoldOf(View(s, t), s.txns[t].req.session, id)
    ensures TookSlot(s.rows, s.txns[t].req, s.clock, end.rows) <==> !blocked
  {
    AloneChoose(h, s, t);
    end := AloneFromTarget(h, Apply(h, s, ChooseTarget(t)), t, blocked);
    RunCons(h, s, ChooseTarget(t), Alone(t, blocked)[1..], end);
    assert Alone(t, blocked) == [ChooseTarget(t)] + Alone(t, blocked)[1..];
  }

  lemma AloneFromTarget(h: string -> int, s: State, t: nat, blocked: bool) returns (end: State)
    requires CreateAt(h, s, t, Targeted) && s.txns[t].target == None
    requires forall id :: HoldOf(View(s, t), s.txns[t].req.session, id) ==> !Stale(View(s, t)[id], s.txns[t].req.now)
    requires blocked == exists id :: Blocking(View(s, t), s.txns[t].req, None, id)
    ensures Run(h, s, Alone(t, blocked)[1..], end)
    ensures OneHoldPerSession(end.rows) <==> blocked || forall id :: !HoldOf(View(s, t), s.txns[t].req.session, id)
    ensures TookSlot(s.rows, s.txns[t].req, s.clock, end.rows) <==> !blocked
  {
    AloneSweep(h, s, t);
    end := AloneFromSweep(h, Apply(h, s, SweepCar(t)), t, blocked);
    RunCons(h, s, SweepCar(t), Alone(t, blocked)[2..], end);
    assert Alone(t, blocked)[1..] == [SweepCar(t)] + Alone(t, blocked)[2..];
  }

  // ---------- The lapse is real ----------

  ghost predicate TwoLiveHolds(s: State) {
    && 0 in s.rows && 1 in s.rows && s.rows[0].session == s.rows[1].session
    && Active(s.rows[0], s.clock) && Active(s.rows[1], s.clock)
  }

  ghost predicate CanDouble(h: string -> int, s: State) {
    exists steps, s' :: Run(h, s, steps, s') && TwoLiveHolds(s')
  }

  lemma DoubleBack(h: string -> int, s: State, step: Step, next: State)
    requires Enabled(h, s, step) && Apply(h, s, step) == next && CanDouble(h, next)
    ensures CanDouble(h, s)
  {
    var rest, s' :| Run(h, next, rest, s') && TwoLiveHolds(s');
    assert ([step] + rest)[1..] == rest;
    assert Run(h, s, [step] + rest, s');
  }

  const OLD_HOLD: Row := Row("guest", 1, 0, 10, PendingPayment, 5)
  const NEW_HOLD: Row := Row("guest", 2, 0, 10, PendingPayment, 5 + HOLD_WINDOW_MS)
  const REQUEST: Request := Request(Create, "guest", 2, 0, 10, 4)

  function Keys(h: string -> int, cars: nat): map<LockKey, nat> {
    var session := map[SessionKey(h("guest")) := 0];
    if cars == 0 then session
    else if cars == 1 then session[CarKey(1) := 0]
    else session[CarKey(1) := 0][CarKey(2) := 0]
  }

  function Waiting(h: string -> int, phase: Phase): State {
    State(4, 1, map[0 := OLD_HOLD], if phase == Begun then map[] else Keys(h, 0),
          [Txn(REQUEST, phase, [], 0, None, None, map[])])
  }

  function Working(h: string -> int, clock: int, phase: Phase, taken: nat): State {
    State(clock, 1, map[0 := OLD_HOLD], Keys(h, taken),
          [Txn(REQUEST, phase, [1, 2], taken, None, None, map[])])
  }

  lemma LapseLocks(h: string -> int)
    ensures Enabled(h, Waiting(h, Begun), LockSession(0))
    ensures Apply(h, Waiting(h, Begun), LockSession(0)) == Waiting(h, SessionLocked)
    ensures Enabled(h, Working(h, 4, Locking, 0), LockCar(0))
    ensures Apply(h, Working(h, 4, Locking, 0), LockCar(0)) == Working(h, 4, Locking, 1)
    ensures Enabled(h, Working(h, 4, Locking, 1), LockCar(0))
    ensures Apply(h, Working(h, 4, Locking, 1), LockCar(0)) == Working(h, 4, Locking, 2)
  {
  }

  /** The cars to lock: the one wanted and the one the guest's hold is on. */
  lemma LapseReadEnabled(h: string -> int)
    ensures Enabled(h, Waiting(h, SessionLocked), ReadHolds(0, None, [Whole(1), Whole(2)]))
  {
    var s, raw := Waiting(h, SessionLocked), [Whole(1), Whole(2)];
    assert s.rows[0].session == "guest" && s.rows[0].car == 1;
    assert InvolvedCars(s.rows, REQUEST, raw);
  }

  lemma BothCarsInOrder()
    ensures CarLockOrder([Whole(1), Whole(2)]) == [1, 2]
  {
    CarLockOrderContents([Whole(1), Whole(2)]);
    AscendingIsDetermined(CarLockOrder([Whole(1), Whole(2)]), [1, 2]);
  }

  lemma LapseRead(h: string -> int)
    ensures var read := ReadHolds(0, None, [Whole(1), Whole(2)]);
            && Enabled(h, Waiting(h, SessionLocked), read)
            && Apply(h, Waiting(h, SessionLocked), read) == Working(h, 4, Locking, 0)
  {
    LapseReadEnabled(h);
    BothCarsInOrder();
  }

  lemma LapseSweep(h: string -> int)
    ensures Enabled(h, Working(h, 4, Locking, 2), SweepSession(0))
    ensures Apply(h, Working(h, 4, Locking, 2), SweepSession(0)) == Working(h, 4, SessionSwept, 2)
    ensures Apply(h, Working(h, 4, SessionSwept, 2), Tick(1)) == Working(h, 5, SessionSwept, 2)
  {
    assert View(Working(h, 4, Locking, 2), 0) == map[0 := OLD_HOLD];
    assert StaleOfSession(map[0 := OLD_HOLD], "guest", 4) == {};
  }

  lemma LapseChoose(h: string -> int)
    ensures Enabled(h, Working(h, 5, SessionSwept, 2), ChooseTarget(0))
    ensures Apply(h, Working(h, 5, SessionSwept, 2), ChooseTarget(0)) == Working(h, 5, Targeted, 2)
  {
    var view := View(Working(h, 5, SessionSwept, 2), 0);
    assert view == map[0 := OLD_HOLD];
    assert !ActiveOf(view, "guest", 5, 0);
  }

  lemma LapseCheck(h: string -> int)
    ensures Enabled(h, Working(h, 5, Targeted, 2), SweepCar(0))
    ensures Apply(h, Working(h, 5, Targeted, 2), SweepCar(0)) == Working(h, 5, CarSwept, 2)
    ensures Enabled(h, Working(h, 5, CarSwept, 2), CheckOverlap(0))
    ensures Apply(h, Working(h, 5, CarSwept, 2), CheckOverlap(0)) == Working(h, 5, Cleared, 2)
  {
    assert View(Working(h, 5, Targeted, 2), 0) == map[0 := OLD_HOLD];
    assert StaleOfCar(map[0 := OLD_HOLD], 2, 4) == {};
  }

  function Booked(h: string -> int, committed: bool): State {
    State(5, 2, if committed then map[0 := OLD_HOLD, 1 := NEW_HOLD] else map[0 := OLD_HOLD],
          if committed then map[] else Keys(h, 2),
          [if committed then Txn(REQUEST, Done, [1, 2], 2, None, Some(1), map[])
           else Txn(REQUEST, Written, [1, 2], 2, None, Some(1), map[1 := NEW_HOLD])])
  }

  lemma LapseBook(h: string -> int)
    ensures Enabled(h, Working(h, 5, Cleared, 2), Write(0))
    ensures Apply(h, Working(h, 5, Cleared, 2), Write(0)) == Booked(h, false)
    ensures Enabled(h, Booked(h, false), Finish(0))
    ensures Apply(h, Booked(h, false), Finish(0)) == Booked(h, true)
  {
    assert View(Booked(h, false), 0) == map[0 := OLD_HOLD, 1 := NEW_HOLD];
    assert Release(Keys(h, 2), 0) == map[];
  }

  lemma LapseRevive(h: string -> int)
    ensures CanDouble(h, Booked(h, true))
  {
    var s, refresh := Booked(h, true), Lifecycle(0, PendingPayment, 5 + HOLD_WINDOW_MS);
    assert Enabled(h, s, refresh);
    var s' := Apply(h, s, refresh);
    assert TwoLiveHolds(s') && Run(h, s', [], s');
    DoubleBack(h, s, refresh, s');
  }

  function LapseStart(): State {
    State(4, 1, map[0 := OLD_HOLD], map[], [])
  }

  /** The second half: from the moment all locks are held. */
  lemma LapseTail(h: string -> int)
    ensures CanDouble(h, Working(h, 4, Locking, 2))
  {
    LapseRevive(h);
    LapseBook(h);
    DoubleBack(h, Booked(h, false), Finish(0), Booked(h, true));
    DoubleBack(h, Working(h, 5, Cleared, 2), Write(0), Booked(h, false));
    LapseCheck(h);
    DoubleBack(h, Working(h, 5, CarSwept, 2), CheckOverlap(0), Working(h, 5, Cleared, 2));
    DoubleBack(h, Working(h, 5, Targeted, 2), SweepCar(0), Working(h, 5, CarSwept, 2));
    LapseSweep(h);
    LapseChoose(h);
    DoubleBack(h, Working(h, 5, SessionSwept, 2), ChooseTarget(0), Working(h, 5, Targeted, 2));
    DoubleBack(h, Working(h, 4, SessionSwept, 2), Tick(1), Working(h, 5, SessionSwept, 2));
    DoubleBack(h, Working(h, 4, Locking, 2), SweepSession(0), Working(h, 4, SessionSwept, 2));
  }

  /** The first half: the request arrives, reads its session and takes its locks. */
  lemma LapseHead(h: string -> int)
    requires CanDouble(h, Working(h, 4, Locking, 2))
    ensures CanDouble(h, Waiting(h, Begun))
  {
    LapseLocks(h);
    DoubleBack(h, Working(h, 4, Locking, 1), LockCar(0), Working(h, 4, Locking, 2));
    DoubleBack(h, Working(h, 4, Locking, 0), LockCar(0), Working(h, 4, Locking, 1));
    LapseRead(h);
    DoubleBack(h, Waiting(h, SessionLocked), ReadHolds(0, None, [Whole(1), Whole(2)]), Working(h, 4, Locking, 0));
    DoubleBack(h, Waiting(h, Begun), LockSession(0), Waiting(h, SessionLocked));
  }

  lemma LapseBegin(h: string -> int)
    requires CanDouble(h, Waiting(h, Begun))
    ensures Initial(LapseStart()) && CanDouble(h, LapseStart())
  {
    assert Apply(h, LapseStart(), Begin(REQUEST)) == Waiting(h, Begun);
    DoubleBack(h, LapseStart(), Begin(REQUEST), Waiting(h, Begun));
  }

  /**
   * A guest's hold runs out while their second request waits for its locks: the request books another
   * car, and a checkout refresh already under way revives the first hold. Two live holds, one session.
   */
  lemma LapsedHoldCanDouble(h: string -> int)
    ensures Initial(LapseStart()) && CanDouble(h, LapseStart())
  {
    LapseTail(h);
    LapseHead(h);
    LapseBegin(h);
  }
}
