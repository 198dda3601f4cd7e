/**
 * Session-level advisory locks over a connection pool: any number of checkout and job callers, each
 * borrowing a client, trying the lock, running its work, unlocking and giving the client back.
 * A lock belongs to the connection, and PostgreSQL grants it again to the connection that has it.
 */
module SessionLocks {
  import opened Results

  datatype Task = Checkout(reservationId: int) | Job(jobKey: string)

  datatype LockKey = CheckoutKey(id: int) | JobKey(hash: int)

  function KeyOf(h: string -> int, task: Task): LockKey {
    match task
    case Checkout(id) => CheckoutKey(id)
    case Job(key) => JobKey(h(key))
  }

  datatype Outcome = Normal | Threw | Skipped | Busy

  datatype Pc =
    | Start                                     // about to borrow a client for this attempt
    | Connected(client: nat)                    // about to try the lock
    | Working(client: nat)                      // lock held, the work body runs
    | Unlocking(client: nat, result: Outcome)   // work over, about to unlock
    | Releasing(client: nat, ended: Option<Outcome>)  // about to give the client back; None: not acquired, retry
    | Sleeping                                  // backing off, no client
    | Finished(outcome: Outcome)

  datatype Caller = Caller(task: Task, maxAttempts: int, attempt: nat, works: nat, sleeps: nat, pc: Pc)

  datatype Grant = Grant(client: nat, count: nat)

  datatype State = State(idle: set<nat>, locks: map<LockKey, Grant>, callers: seq<Caller>)

  datatype Step =
    | Spawn(task: Task, maxAttempts: int)
    | OpenClient(client: nat)
    | Connect(t: nat, client: nat)
    | Try(t: nat)
    | TryThrows(t: nat)
    | WorkEnds(t: nat, ok: bool)
    | Unlock(t: nat)
    | Release(t: nat)
    | Wake(t: nat)

  predicate HasClient(pc: Pc) {
    pc.Connected? || pc.Working? || pc.Unlocking? || pc.Releasing?
  }

  predicate Locked(pc: Pc) {
    pc.Working? || pc.Unlocking?
  }

  predicate Granted(s: State, key: LockKey, client: nat) {
    key !in s.locks || s.locks[key].client == client
  }

  predicate Enabled(s: State, step: Step) {
    match step
    case Spawn(_, _) => true
    case OpenClient(c) => c !in s.idle && forall u :: 0 <= u < |s.callers| && HasClient(s.callers[u].pc) ==> s.callers[u].pc.client != c
    case Connect(t, c) => t < |s.callers| && s.callers[t].pc.Start? && c in s.idle
    case Try(t) => t < |s.callers| && s.callers[t].pc.Connected?
    case TryThrows(t) => t < |s.callers| && s.callers[t].pc.Connected?
    case WorkEnds(t, _) => t < |s.callers| && s.callers[t].pc.Working?
    case Unlock(t) => t < |s.callers| && s.callers[t].pc.Unlocking?
    case Release(t) => t < |s.callers| && s.callers[t].pc.Releasing?
    case Wake(t) => t < |s.callers| && s.callers[t].pc.Sleeping?
  }

  function Put(s: State, t: nat, x: Caller): State
    requires t < |s.callers|
  {
    s.(callers := s.callers[t := x])
  }

  /** pg_try_advisory_lock: granted when free or already this connection's, then counted once more. */
  function Acquire(locks: map<LockKey, Grant>, key: LockKey, client: nat): map<LockKey, Grant> {
    locks[key := Grant(client, if key in locks then locks[key].count + 1 else 1)]
  }

  /** pg_advisory_unlock: undoes one acquisition of this connection. */
  function Unlocked(locks: map<LockKey, Grant>, key: LockKey, client: nat): map<LockKey, Grant> {
    if key !in locks || locks[key].client != client then locks
    else if locks[key].count <= 1 then locks - {key}
    else locks[key := Grant(client, locks[key].count - 1)]
  }

  /** Grants nest: an unlock undoes one grant, the first or a repeated one, and refuses another connection's. */
  lemma GrantsNest(locks: map<LockKey, Grant>, key: LockKey, client: nat, other: nat)
    requires key in locks ==> locks[key].client == client && locks[key].count >= 1
    ensures Unlocked(Acquire(locks, key, client), key, client) == locks
    ensures other != client ==> Unlocked(Acquire(locks, key, client), key, other) == Acquire(locks, key, client)
  {
  }

  /** Where a caller goes once its client is back: on to its result, to sleep, or out of attempts. */
  function AfterRelease(x: Caller): Caller
    requires x.pc.Releasing?
  {
    match x.pc.ended
    case Some(outcome) => x.(pc := Finished(outcome))
    case None =>
      if x.task.Job? then x.(pc := Finished(Skipped))
      else if x.attempt < x.maxAttempts then x.(pc := Sleeping, sleeps := x.sleeps + 1)
      else x.(pc := Finished(Busy))
  }

  function Apply(h: string -> int, s: State, step: Step): State
    requires Enabled(s, step)
  {
    match step
    case Spawn(task, max) =>
      var pc := if task.Checkout? && max < 1 then Finished(Busy) else Start;
      s.(callers := s.callers + [Caller(task, max, 1, 0, 0, pc)])
    case OpenClient(c) => s.(idle := s.idle + {c})
    case Connect(t, c) => Put(s, t, s.callers[t].(pc := Connected(c))).(idle := s.idle - {c})
    case Try(t) =>
      var x := s.callers[t];
      var key := KeyOf(h, x.task);
      if Granted(s, key, x.pc.client) then
        Put(s, t, x.(pc := Working(x.pc.client), works := x.works + 1)).(locks := Acquire(s.locks, key, x.pc.client))
      else
        Put(s, t, x.(pc := Releasing(x.pc.client, None)))
    case TryThrows(t) =>
      var x := s.callers[t];
      Put(s, t, x.(pc := Releasing(x.pc.client, Some(Threw))))
    case WorkEnds(t, ok) =>
      var x := s.callers[t];
      Put(s, t, x.(pc := Unlocking(x.pc.client, if ok then Normal else Threw)))
    case Unlock(t) =>
      var x := s.callers[t];
      Put(s, t, x.(pc := Releasing(x.pc.client, Some(x.pc.result))))
        .(locks := Unlocked(s.locks, KeyOf(h, x.task), x.pc.client))
    case Release(t) =>
      var x := s.callers[t];
      Put(s, t, AfterRelease(x)).(idle := s.idle + {x.pc.client})
    case Wake(t) =>
      var x := s.callers[t];
      Put(s, t, x.(pc := Start, attempt := x.attempt + 1))
  }

  ghost predicate Run(h: string -> int, s: State, steps: seq<Step>, s': State)
    decreases |steps|
  {
    if steps == [] then s == s'
    else Enabled(s, steps[0]) && Run(h, Apply(h, s, steps[0]), steps[1..], s')
  }

  ghost predicate Initial(s: State) {
    s.locks == map[] && s.callers == []
  }

  // ---------- Invariant ----------

  /** A client is idle or with exactly one caller. */
  ghost predicate ClientsExclusive(s: State) {
    && (forall t :: 0 <= t < |s.callers| && HasClient(s.callers[t].pc) ==> s.callers[t].pc.client !in s.idle)
    && (forall t, u :: 0 <= t < u < |s.callers| && HasClient(s.callers[t].pc) && HasClient(s.callers[u].pc) ==>
          s.callers[t].pc.client != s.callers[u].pc.client)
  }

  ghost predicate HolderOf(h: string -> int, s: State, t: nat, key: LockKey) {
    t < |s.callers| && Locked(s.callers[t].pc) && KeyOf(h, s.callers[t].task) == key
  }

  /** The lock table records exactly the callers between a granted try and their unlock, each once. */
  ghost predicate LocksExact(h: string -> int, s: State) {
    && (forall key :: key in s.locks ==> exists t: nat :: HolderOf(h, s, t, key) && s.locks[key] == Grant(s.callers[t].pc.client, 1))
    && (forall t: nat, key :: HolderOf(h, s, t, key) ==> key in s.locks && s.locks[key] == Grant(s.callers[t].pc.client, 1))
  }

  predicate OutcomeFits(x: Caller, outcome: Outcome) {
    match outcome
    case Normal => x.works == 1
    case Threw => x.works <= 1
    case Skipped => x.works == 0 && x.task.Job?
    case Busy => x.works == 0 && x.task.Checkout? && (x.maxAttempts < 1 || x.attempt == x.maxAttempts)
  }

  /** How often the work has run and the caller has slept, by where it stands. */
  predicate HistoryOk(x: Caller) {
    && x.sleeps == x.attempt - (if x.pc.Sleeping? then 0 else 1)
    && (x.task.Job? ==> x.attempt == 1 && !x.pc.Sleeping?)
    && (x.task.Checkout? ==> x.attempt <= x.maxAttempts || x.pc == Finished(Busy))
    && match x.pc
       case Start => x.works == 0
       case Connected(_) => x.works == 0
       case Working(_) => x.works == 1
       case Unlocking(_, result) => x.works == 1 && (result == Normal || result == Threw)
       case Releasing(_, ended) =>
         if ended == None then x.works == 0 else OutcomeFits(x, ended.value) && (ended.value == Normal || ended.value == Threw)
       case Sleeping => x.works == 0 && x.attempt < x.maxAttempts
       case Finished(outcome) => OutcomeFits(x, outcome)
  }

  ghost predicate Inv(h: string -> int, s: State) {
    ClientsExclusive(s) && LocksExact(h, s) && forall t :: 0 <= t < |s.callers| ==> HistoryOk(s.callers[t])
  }

  /** A step that leaves the lock table and the set of lock holders alone. */
  lemma SameHolders(h: string -> int, s: State, s': State)
    requires LocksExact(h, s) && s'.locks == s.locks && |s.callers| <= |s'.callers|
    requires forall u :: 0 <= u < |s.callers| && (Locked(s.callers[u].pc) || Locked(s'.callers[u].pc)) ==>
               && Locked(s.callers[u].pc) && Locked(s'.callers[u].pc)
               && s'.callers[u].pc.client == s.callers[u].pc.client && s'.callers[u].task == s.callers[u].task
    requires forall u :: |s.callers| <= u < |s'.callers| ==> !Locked(s'.callers[u].pc)
    ensures LocksExact(h, s')
  {
    forall key | key in s'.locks
      ensures exists t: nat :: HolderOf(h, s', t, key) && s'.locks[key] == Grant(s'.callers[t].pc.client, 1)
    {
      var t: nat :| HolderOf(h, s, t, key) && s.locks[key] == Grant(s.callers[t].pc.client, 1);
      assert HolderOf(h, s', t, key);
    }
    forall t: nat, key | HolderOf(h, s', t, key) ensures key in s'.locks && s'.locks[key] == Grant(s'.callers[t].pc.client, 1) {
      assert HolderOf(h, s, t, key);
    }
  }

  lemma HistoryKept(h: string -> int, s: State, step: Step)
    requires Enabled(s, step) && forall t :: 0 <= t < |s.callers| ==> HistoryOk(s.callers[t])
    ensures forall t :: 0 <= t < |Apply(h, s, step).callers| ==> HistoryOk(Apply(h, s, step).callers[t])
  {
    var s' := Apply(h, s, step);
    forall u | 0 <= u < |s'.callers| ensures HistoryOk(s'.callers[u]) {
      assert u < |s.callers| ==> HistoryOk(s.callers[u]);
    }
  }

  lemma ClientsKept(h: string -> int, s: State, step: Step)
    requires Enabled(s, step) && ClientsExclusive(s)
    ensures ClientsExclusive(Apply(h, s, step))
  {
  }

  /** A granted try: by exclusiveness of clients the key was free, so it is recorded once. */
  lemma GrantExact(h: string -> int, s: State, t: nat)
    requires ClientsExclusive(s) && LocksExact(h, s) && Enabled(s, Try(t))
    requires Granted(s, KeyOf(h, s.callers[t].task), s.callers[t].pc.client)
    ensures LocksExact(h, Apply(h, s, Try(t)))
  {
    var s', x := Apply(h, s, Try(t)), s.callers[t];
    var key := KeyOf(h, x.task);
    KeyWasFree(h, s, t);
    forall k | k in s'.locks
      ensures exists u: nat :: HolderOf(h, s', u, k) && s'.locks[k] == Grant(s'.callers[u].pc.client, 1)
    {
      if k == key {
        assert HolderOf(h, s', t, k);
      } else {
        var u: nat :| HolderOf(h, s, u, k) && s.locks[k] == Grant(s.callers[u].pc.client, 1);
        assert HolderOf(h, s', u, k);
      }
    }
    forall u: nat, k | HolderOf(h, s', u, k) ensures k in s'.locks && s'.locks[k] == Grant(s'.callers[u].pc.client, 1) {
      if u != t { assert HolderOf(h, s, u, k); }
    }
  }

  lemma KeyWasFree(h: string -> int, s: State, t: nat)
    requires ClientsExclusive(s) && LocksExact(h, s) && Enabled(s, Try(t))
    requires Granted(s, KeyOf(h, s.callers[t].task), s.callers[t].pc.client)
    ensures KeyOf(h, s.callers[t].task) !in s.locks
  {
    var key := KeyOf(h, s.callers[t].task);
    if key in s.locks {
      assert false;
    }
  }

  lemma UnlockFreesKey(h: string -> int, s: State, t: nat)
    requires LocksExact(h, s) && Enabled(s, Unlock(t))
    ensures Apply(h, s, Unlock(t)).locks == s.locks - {KeyOf(h, s.callers[t].task)}
    ensures forall u: nat, k :: HolderOf(h, s, u, k) && k != KeyOf(h, s.callers[t].task) ==> HolderOf(h, Apply(h, s, Unlock(t)), u, k)
  {
    assert HolderOf(h, s, t, KeyOf(h, s.callers[t].task));
  }

  lemma UnlockedHasHolder(h: string -> int, s: State, t: nat, k: LockKey)
    requires LocksExact(h, s) && Enabled(s, Unlock(t)) && k in Apply(h, s, Unlock(t)).locks
    ensures var s' := Apply(h, s, Unlock(t));
            exists u: nat :: HolderOf(h, s', u, k) && s'.locks[k] == Grant(s'.callers[u].pc.client, 1)
  {
    UnlockFreesKey(h, s, t);
    var u: nat :| HolderOf(h, s, u, k) && s.locks[k] == Grant(s.callers[u].pc.client, 1);
    assert HolderOf(h, Apply(h, s, Unlock(t)), u, k);
  }

  lemma HolderStaysLocked(h: string -> int, s: State, t: nat, u: nat, k: LockKey)
    requires LocksExact(h, s) && Enabled(s, Unlock(t)) && ClientsExclusive(s) && HolderOf(h, Apply(h, s, Unlock(t)), u, k)
    ensures var s' := Apply(h, s, Unlock(t)); k in s'.locks && s'.locks[k] == Grant(s'.callers[u].pc.client, 1)
  {
    UnlockFreesKey(h, s, t);
    assert u != t && HolderOf(h, s, u, k);
    OtherKey(h, s, t, u, k);
  }

  lemma UnlockExact(h: string -> int, s: State, t: nat)
    requires LocksExact(h, s) && Enabled(s, Unlock(t)) && ClientsExclusive(s)
    ensures LocksExact(h, Apply(h, s, Unlock(t)))
  {
    var s' := Apply(h, s, Unlock(t));
    forall k | k in s'.locks
      ensures exists u: nat :: HolderOf(h, s', u, k) && s'.locks[k] == Grant(s'.callers[u].pc.client, 1)
    {
      UnlockedHasHolder(h, s, t, k);
    }
    forall u: nat, k | HolderOf(h, s', u, k) ensures k in s'.locks && s'.locks[k] == Grant(s'.callers[u].pc.client, 1) {
      HolderStaysLocked(h, s, t, u, k);
    }
  }

  /** Two callers that hold locks hold different keys. */
  lemma OtherKey(h: string -> int, s: State, t: nat, u: nat, key: LockKey)
    requires LocksExact(h, s) && ClientsExclusive(s) && t != u && t < |s.callers|
    requires Locked(s.callers[t].pc) && HolderOf(h, s, u, key)
    ensures key != KeyOf(h, s.callers[t].task)
  {
    assert HolderOf(h, s, t, KeyOf(h, s.callers[t].task));
  }

  lemma LocksKept(h: string -> int, s: State, step: Step)
    requires LocksExact(h, s) && ClientsExclusive(s) && Enabled(s, step)
    ensures LocksExact(h, Apply(h, s, step))
  {
    if step.Unlock? {
      UnlockExact(h, s, step.t);
    } else if step.Try? && Granted(s, KeyOf(h, s.callers[step.t].task), s.callers[step.t].pc.client) {
      GrantExact(h, s, step.t);
    } else {
      SameHolders(h, s, Apply(h, s, step));
    }
  }

  lemma StepKeepsInv(h: string -> int, s: State, step: Step)
    requires Inv(h, s) && Enabled(s, step)
    ensures Inv(h, Apply(h, s, step))
  {
    HistoryKept(h, s, step);
    ClientsKept(h, s, step);
    LocksKept(h, s, step);
  }

  lemma {:induction false} RunKeepsInv(h: string -> int, s: State, steps: seq<Step>, s': State)
    requires Inv(h, s) && Run(h, s, steps, s')
    ensures Inv(h, s')
    decreases |steps|
  {
    if steps != [] {
      StepKeepsInv(h, s, steps[0]);
      RunKeepsInv(h, Apply(h, s, steps[0]), steps[1..], s');
    }
  }

  // ---------- Results ----------

  /** At most one work body runs per reservation id or job key, whatever the hash and the pool. */
  lemma OneWorkPerKey(h: string -> int, s0: State, steps: seq<Step>, s: State, t: nat, u: nat)
    requires Initial(s0) && Run(h, s0, steps, s)
    requires t < |s.callers| && u < |s.callers| && s.callers[t].pc.Working? && s.callers[u].pc.Working?
    requires s.callers[t].task == s.callers[u].task
    ensures t == u
  {
    RunKeepsInv(h, s0, steps, s);
    var key := KeyOf(h, s.callers[t].task);
    assert HolderOf(h, s, t, key) && HolderOf(h, s, u, key);
  }

  // ---------- What the steps taken tell of an outcome ----------

  /** The result a caller carries or has returned, if it has one yet. */
  function ResultOf(pc: Pc): Option<Outcome> {
    match pc
    case Unlocking(_, result) => Some(result)
    case Releasing(_, ended) => ended
    case Finished(outcome) => Some(outcome)
    case _ => None
  }

  /** The result tells exactly how the work ended, by the steps taken, or that the try threw. */
  ghost predicate Told(s: State, steps: seq<Step>, t: nat) {
    var result := if t < |s.callers| then ResultOf(s.callers[t].pc) else None;
    && (WorkEnds(t, true) in steps <==> result == Some(Normal))
    && (WorkEnds(t, false) in steps || TryThrows(t) in steps <==> result == Some(Threw))
    && (t < |s.callers| ==>
          (s.callers[t].works == 1 <==> s.callers[t].pc.Working? || WorkEnds(t, true) in steps || WorkEnds(t, false) in steps))
  }

  ghost predicate StoryOk(s: State, steps: seq<Step>) {
    forall t: nat :: Told(s, steps, t)
  }

  lemma StepKeepsStory(h: string -> int, s: State, past: seq<Step>, step: Step)
    requires StoryOk(s, past) && Enabled(s, step) && forall t :: 0 <= t < |s.callers| ==> HistoryOk(s.callers[t])
    ensures StoryOk(Apply(h, s, step), past + [step])
  {
    var s' := Apply(h, s, step);
    forall t: nat ensures Told(s', past + [step], t) {
      assert Told(s, past, t);
      if t < |s.callers| { assert HistoryOk(s.callers[t]); }
    }
  }

  lemma {:induction false} RunKeepsStory(h: string -> int, s: State, past: seq<Step>, steps: seq<Step>, s': State)
    requires Inv(h, s) && StoryOk(s, past) && Run(h, s, steps, s')
    ensures StoryOk(s', past + steps)
    decreases |steps|
  {
    if steps == [] {
      assert past + steps == past;
    } else {
      StepKeepsInv(h, s, steps[0]);
      StepKeepsStory(h, s, past, steps[0]);
      RunKeepsStory(h, Apply(h, s, steps[0]), past + [steps[0]], steps[1..], s');
      assert (past + [steps[0]]) + steps[1..] == past + steps;
    }
  }

  /**
   * A caller returns normally iff its work body ended well, and throws iff its work body or its try threw; either
   * way the work happened as often as that says. Skipped, for jobs, and busy, for checkouts after every attempt,
   * mean that it never happened.
   */
  lemma OutcomesAreHonest(h: string -> int, s0: State, steps: seq<Step>, s: State, t: nat)
    requires Initial(s0) && Run(h, s0, steps, s) && t < |s.callers| && s.callers[t].pc.Finished?
    ensures var x := s.callers[t];
            && (x.pc.outcome == Normal <==> WorkEnds(t, true) in steps)
            && (x.pc.outcome == Threw <==> WorkEnds(t, false) in steps || TryThrows(t) in steps)
            && (x.works == 1 <==> WorkEnds(t, true) in steps || WorkEnds(t, false) in steps) && x.works <= 1
            && (x.pc.outcome == Skipped || x.pc.outcome == Busy ==> x.works == 0)
            && (x.pc.outcome == Skipped ==> x.task.Job?) && (x.pc.outcome == Busy ==> x.task.Checkout?)
            && (x.pc.outcome == Busy && x.maxAttempts >= 1 ==> x.attempt == x.maxAttempts && x.sleeps == x.maxAttempts - 1)
  {
    RunKeepsInv(h, s0, steps, s);
    assert HistoryOk(s.callers[t]);
    RunKeepsStory(h, s0, [], steps, s);
    assert [] + steps == steps && Told(s, steps, t);
  }

  /** A client in the pool never holds a lock, and with every caller finished nothing is locked. */
  lemma ClientsComeBackClean(h: string -> int, s0: State, steps: seq<Step>, s: State)
    requires Initial(s0) && Run(h, s0, steps, s)
    ensures forall key :: key in s.locks ==> s.locks[key].client !in s.idle
    ensures forall t :: 0 <= t < |s.callers| && s.callers[t].pc.Releasing? ==>
              forall key :: key in s.locks ==> s.locks[key].client != s.callers[t].pc.client
    ensures (forall t :: 0 <= t < |s.callers| ==> s.callers[t].pc.Finished?) ==> s.locks == map[]
  {
    RunKeepsInv(h, s0, steps, s);
    forall key | key in s.locks
      ensures s.locks[key].client !in s.idle
      ensures forall t :: 0 <= t < |s.callers| && s.callers[t].pc.Releasing? ==> s.locks[key].client != s.callers[t].pc.client
      ensures exists t :: 0 <= t < |s.callers| && !s.callers[t].pc.Finished?
    {
      var u: nat :| HolderOf(h, s, u, key) && s.locks[key] == Grant(s.callers[u].pc.client, 1);
    }
  }

  /** A try is refused exactly when another caller holds the same key: a collision costs a wait or a skip. */
  lemma RefusedOnlyByAHolder(h: string -> int, s0: State, steps: seq<Step>, s: State, t: nat)
    requires Initial(s0) && Run(h, s0, steps, s) && Enabled(s, Try(t))
    ensures Apply(h, s, Try(t)).callers[t].pc.Releasing? <==>
              exists u: nat :: u != t && HolderOf(h, s, u, KeyOf(h, s.callers[t].task))
  {
    RunKeepsInv(h, s0, steps, s);
    var key := KeyOf(h, s.callers[t].task);
    if key in s.locks && s.locks[key].client != s.callers[t].pc.client {
      var u: nat :| HolderOf(h, s, u, key) && s.locks[key] == Grant(s.callers[u].pc.client, 1);
      assert u != t;
    }
  }

  // ---------- Everybody gets on ----------

  ghost predicate Reaches(h: string -> int, s: State, s': State) {
    exists steps :: Run(h, s, steps, s')
  }

  lemma {:induction false} RunThen(h: string -> int, s: State, a: seq<Step>, s1: State, b: seq<Step>, s2: State)
    requires Run(h, s, a, s1) && Run(h, s1, b, s2)
    ensures Run(h, s, a + b, s2)
    decreases |a|
  {
    if a == [] {
      assert a + b == b;
    } else {
      RunThen(h, Apply(h, s, a[0]), a[1..], s1, b, s2);
      assert (a + b)[0] == a[0] && (a + b)[1..] == a[1..] + b;
    }
  }

  lemma ReachesThen(h: string -> int, s: State, s1: State, s2: State)
    requires Reaches(h, s, s1) && Reaches(h, s1, s2)
    ensures Reaches(h, s, s2)
  {
    var a :| Run(h, s, a, s1);
    var b :| Run(h, s1, b, s2);
    RunThen(h, s, a, s1, b, s2);
  }

  lemma ReachesNext(h: string -> int, s: State, s1: State, step: Step)
    requires Reaches(h, s, s1) && Enabled(s1, step)
    ensures Reaches(h, s, Apply(h, s1, step))
  {
    assert [step][1..] == [] && Run(h, Apply(h, s1, step), [], Apply(h, s1, step));
    assert Run(h, s1, [step], Apply(h, s1, step));
    ReachesThen(h, s, s1, Apply(h, s1, step));
  }

  /** How many steps a caller has left at most: six an attempt. */
  function Left(x: Caller): int {
    var attemptsLeft := if x.task.Job? then 0 else x.maxAttempts - x.attempt;
    match x.pc
    case Start => 6 * attemptsLeft + 5
    case Connected(_) => 6 * attemptsLeft + 4
    case Working(_) => 6 * attemptsLeft + 3
    case Unlocking(_, _) => 6 * attemptsLeft + 2
    case Releasing(_, _) => 6 * attemptsLeft + 1
    case Sleeping => 6 * attemptsLeft
    case Finished(_) => 0
  }

  function LeftOfAll(callers: seq<Caller>): int {
    if callers == [] then 0 else LeftOfAll(callers[..|callers| - 1]) + Left(callers[|callers| - 1])
  }

  lemma {:induction false} LeftIsNatural(callers: seq<Caller>)
    requires forall t :: 0 <= t < |callers| ==> HistoryOk(callers[t])
    ensures 0 <= LeftOfAll(callers)
  {
    if callers != [] {
      LeftIsNatural(callers[..|callers| - 1]);
      assert HistoryOk(callers[|callers| - 1]);
    }
  }

  lemma {:induction false} LeftOfOthersStays(callers: seq<Caller>, t: nat, x: Caller)
    requires t < |callers|
    ensures LeftOfAll(callers[t := x]) - LeftOfAll(callers) == Left(x) - Left(callers[t])
  {
    var n := |callers| - 1;
    if t < n {
      assert callers[t := x][..n] == callers[..n][t := x];
      LeftOfOthersStays(callers[..n], t, x);
    } else {
      assert callers[t := x][..n] == callers[..n];
    }
  }

  predicate StepOf(step: Step, t: nat) {
    match step
    case Spawn(_, _) => false
    case OpenClient(_) => false
    case Connect(u, _) => u == t
    case Try(u) => u == t
    case TryThrows(u) => u == t
    case WorkEnds(u, _) => u == t
    case Unlock(u) => u == t
    case Release(u) => u == t
    case Wake(u) => u == t
  }

  /** A caller's own step takes it nearer to its end, whatever the answers, and leaves the other callers where they are. */
  lemma OwnStepsEnd(h: string -> int, s: State, step: Step, t: nat)
    requires Inv(h, s) && Enabled(s, step) && StepOf(step, t)
    ensures var s' := Apply(h, s, step);
            && |s'.callers| == |s.callers| && (forall u :: 0 <= u < |s.callers| && u != t ==> s'.callers[u] == s.callers[u])
            && s'.callers[t].task == s.callers[t].task && Left(s'.callers[t]) < Left(s.callers[t])
            && LeftOfAll(s'.callers) < LeftOfAll(s.callers)
  {
    var x' := OwnStepMoves(h, s, step, t);
    LeftOfOthersStays(s.callers, t, x');
  }

  lemma OwnStepMoves(h: string -> int, s: State, step: Step, t: nat) returns (x': Caller)
    requires Inv(h, s) && Enabled(s, step) && StepOf(step, t)
    ensures Apply(h, s, step).callers == s.callers[t := x']
    ensures x'.task == s.callers[t].task && Left(x') < Left(s.callers[t])
  {
    assert HistoryOk(s.callers[t]);
    x' := Apply(h, s, step).callers[t];
  }

  /** There is a client at all: in the pool or with a caller. */
  ghost predicate HasPool(s: State) {
    s.idle != {} || exists t :: 0 <= t < |s.callers| && HasClient(s.callers[t].pc)
  }

  predicate AllFinished(s: State) {
    forall t :: 0 <= t < |s.callers| ==> s.callers[t].pc.Finished?
  }

  /** Whoever has a client can go on; when nobody has, the clients are in the pool. */
  lemma NextStep(s: State) returns (step: Step, t: nat)
    requires HasPool(s) && !AllFinished(s)
    ensures Enabled(s, step) && StepOf(step, t)
  {
    if u: nat :| u < |s.callers| && HasClient(s.callers[u].pc) {
      t := u;
      step := match s.callers[t].pc
        case Connected(_) => Try(t)
        case Working(_) => WorkEnds(t, true)
        case Unlocking(_, _) => Unlock(t)
        case _ => Release(t);
    } else {
      var client :| client in s.idle;
      t :| t < |s.callers| && !s.callers[t].pc.Finished?;
      step := if s.callers[t].pc.Sleeping? then Wake(t) else Connect(t, client);
    }
  }

  lemma PoolStays(h: string -> int, s: State, step: Step)
    requires HasPool(s) && Enabled(s, step)
    ensures HasPool(Apply(h, s, step))
  {
    var s' := Apply(h, s, step);
    if s.idle != {} {
      if step.Connect? {
        assert HasClient(s'.callers[step.t].pc);
      } else {
        assert s.idle <= s'.idle;
      }
    } else {
      var t :| 0 <= t < |s.callers| && HasClient(s.callers[t].pc);
      if step == Release(t) {
        assert s.callers[t].pc.client in s'.idle;
      } else {
        assert HasClient(s'.callers[t].pc);
      }
    }
  }

  lemma {:induction false} CanFinish(h: string -> int, s: State)
    requires Inv(h, s) && HasPool(s)
    ensures exists s' :: Reaches(h, s, s') && AllFinished(s') && |s'.callers| == |s.callers|
    decreases LeftOfAll(s.callers)
  {
    assert Run(h, s, [], s);
    assert Reaches(h, s, s);
    LeftIsNatural(s.callers);
    if !AllFinished(s) {
      var step, t := NextStep(s);
      var s1 := Apply(h, s, step);
      ReachesNext(h, s, s, step);
      OwnStepsEnd(h, s, step, t);
      StepKeepsInv(h, s, step);
      PoolStays(h, s, step);
      CanFinish(h, s1);
      var s' :| Reaches(h, s1, s') && AllFinished(s') && |s'.callers| == |s1.callers|;
      ReachesThen(h, s, s1, s');
    }
  }

  /** No caller is ever stuck: from every reachable state with a client at all, everybody can finish, and then nothing is locked. */
  lemma NeverStuck(h: string -> int, s0: State, steps: seq<Step>, s: State)
    requires Initial(s0) && Run(h, s0, steps, s) && HasPool(s)
    ensures exists s' :: Reaches(h, s, s') && AllFinished(s') && |s'.callers| == |s.callers| && s'.locks == map[]
  {
    RunKeepsInv(h, s0, steps, s);
    CanFinish(h, s);
    var s' :| Reaches(h, s, s') && AllFinished(s') && |s'.callers| == |s.callers|;
    var more :| Run(h, s, more, s');
    RunThen(h, s0, steps, s, more, s');
    ClientsComeBackClean(h, s0, steps + more, s');
  }

  /** A caller that comes when nothing is locked gets its lock at the first try, does its work and passes on how that ended. */
  lemma AloneGetsThrough(h: string -> int, s: State, task: Task, max: int, client: nat, ok: bool)
    requires s.locks == map[] && client in s.idle && (task.Job? || max >= 1)
    ensures var x := Caller(task, max, 1, 1, 0, Finished(if ok then Normal else Threw));
            Reaches(h, s, State(s.idle, map[], s.callers + [x]))
  {
    var t := |s.callers|;
    var s1 := Apply(h, s, Spawn(task, max));
    var s2 := Apply(h, s1, Connect(t, client));
    var s3 := Apply(h, s2, Try(t));
    var s4 := Apply(h, s3, WorkEnds(t, ok));
    var s5 := Apply(h, s4, Unlock(t));
    var s6 := Apply(h, s5, Release(t));
    assert Run(h, s, [], s);
    ReachesNext(h, s, s, Spawn(task, max));
    ReachesNext(h, s, s1, Connect(t, client));
    ReachesNext(h, s, s2, Try(t));
    ReachesNext(h, s, s3, WorkEnds(t, ok));
    ReachesNext(h, s, s4, Unlock(t));
    ReachesNext(h, s, s5, Release(t));
    assert s6.idle == s.idle && s6.locks == map[];
    assert s6.callers == s.callers + [Caller(task, max, 1, 1, 0, Finished(if ok then Normal else Threw))];
  }
}
