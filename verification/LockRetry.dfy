/**
 * One caller of the checkout or job lock: the retry loop, its clients and its backoff. What the
 * database answers, how the work ends and the random draws are parameters.
 */
module LockRetry {
  import opened Results
  import opened LockOrder
  import opened Text

  const MAX_ATTEMPTS: int := 40
  const BASE_DELAY_MS: int := 25
  const MAX_DELAY_MS: int := 200

  type Draw = d: real | 0.0 <= d < 1.0 witness 0.0

  function Power2(n: nat): nat {
    if n == 0 then 1 else 2 * Power2(n - 1)
  }

  /** The capped exponential window of an attempt, in milliseconds. */
  function Window(attempt: int): int {
    var grown := BASE_DELAY_MS * Power2(if attempt <= 1 then 0 else attempt - 1);
    if grown < MAX_DELAY_MS then grown else MAX_DELAY_MS
  }

  function CheckoutLockDelayMs(attempt: int, draw: Draw): int {
    var half := Window(attempt) as real / 2.0;
    (half + draw * half).Floor
  }

  lemma {:induction false} Power2Grows(n: nat)
    ensures n >= 3 ==> Power2(n) >= 8
  {
    if n > 3 { Power2Grows(n - 1); }
  }

  lemma WindowValues(attempt: int)
    ensures Window(attempt) == if attempt <= 1 then 25 else if attempt == 2 then 50 else if attempt == 3 then 100 else 200
  {
    if attempt >= 4 { Power2Grows(attempt - 1); }
    assert Power2(0) == 1 && Power2(1) == 2 && Power2(2) == 4;
  }

  /** A delay lies in the upper half of its window, the window's end excluded. */
  lemma DelayRange(attempt: int, draw: Draw)
    ensures Window(attempt) / 2 <= CheckoutLockDelayMs(attempt, draw) <= Window(attempt) - 1
    ensures draw == 0.0 ==> CheckoutLockDelayMs(attempt, draw) == Window(attempt) / 2
    ensures draw == 0.995 ==> CheckoutLockDelayMs(attempt, draw) == Window(attempt) - 1
  {
    WindowValues(attempt);
    var half := Window(attempt) as real / 2.0;
    assert 0.0 <= draw * half < half;
  }

  /** The answer to a try: the lock, a refusal, or a query that throws. */
  datatype Reply = Granted | Refused | TryThrows

  datatype Event =
    | Connect | Try(reply: Reply) | Work(ok: bool) | Unlock | Release | Sleep(ms: int)

  datatype Outcome = Normal | Threw | Skipped | Busy

  type Replies = nat -> Reply
  type Delays = nat -> int

  /** One attempt: borrow a client, try, work and unlock if granted, give the client back. */
  function AttemptEvents(reply: Reply, workOk: bool): seq<Event> {
    if reply == Granted then [Connect, Try(Granted), Work(workOk), Unlock, Release] else [Connect, Try(reply), Release]
  }

  /** How an attempt that is not refused ends. */
  function Ended(reply: Reply, workOk: bool): Outcome {
    if reply == Granted && workOk then Normal else Threw
  }

  /** One turn of the retry loop: an attempt and, if it was refused and is not the last, a sleep. */
  function Turn(attempt: nat, max: int, replies: Replies, workOk: bool, delays: Delays): seq<Event> {
    AttemptEvents(replies(attempt), workOk) + if replies(attempt) == Refused && attempt < max then [Sleep(delays(attempt))] else []
  }

  /** What the retry loop does from an attempt on. */
  function CheckoutEvents(attempt: nat, max: int, replies: Replies, workOk: bool, delays: Delays): seq<Event>
    decreases max - attempt
  {
    if attempt > max then []
    else if replies(attempt) != Refused then Turn(attempt, max, replies, workOk, delays)
    else Turn(attempt, max, replies, workOk, delays) + CheckoutEvents(attempt + 1, max, replies, workOk, delays)
  }

  /** The turns before an attempt, all of them refused. */
  ghost function TurnsBefore(attempt: nat, max: int, replies: Replies, workOk: bool, delays: Delays): seq<Event> {
    if attempt <= 1 then []
    else TurnsBefore(attempt - 1, max, replies, workOk, delays) + Turn(attempt - 1, max, replies, workOk, delays)
  }

  lemma {:induction false} EventsSplit(attempt: nat, max: int, replies: Replies, workOk: bool, delays: Delays)
    requires 1 <= attempt && (attempt <= max + 1 || attempt == 1)
    requires forall i: nat :: 1 <= i < attempt ==> replies(i) == Refused
    ensures CheckoutEvents(1, max, replies, workOk, delays)
         == TurnsBefore(attempt, max, replies, workOk, delays) + CheckoutEvents(attempt, max, replies, workOk, delays)
    ensures CheckoutOutcome(1, max, replies, workOk) == CheckoutOutcome(attempt, max, replies, workOk)
  {
    if attempt > 1 {
      EventsSplit(attempt - 1, max, replies, workOk, delays);
      var before, turn := TurnsBefore(attempt - 1, max, replies, workOk, delays), Turn(attempt - 1, max, replies, workOk, delays);
      var rest := CheckoutEvents(attempt, max, replies, workOk, delays);
      assert before + (turn + rest) == (before + turn) + rest;
    }
  }

  /** The loop stopped at an attempt: not refused there, or past the last one. */
  ghost predicate StopsAt(stop: nat, max: int, replies: Replies) {
    && 1 <= stop && (stop <= max + 1 || stop == 1) && (stop <= max ==> replies(stop) != Refused)
    && forall i: nat :: 1 <= i < stop ==> replies(i) == Refused
  }

  ghost function TurnsUntil(stop: nat, max: int, replies: Replies, workOk: bool, delays: Delays): seq<Event> {
    TurnsBefore(stop, max, replies, workOk, delays) + if stop <= max then Turn(stop, max, replies, workOk, delays) else []
  }

  lemma EventsUntilStop(stop: nat, max: int, replies: Replies, workOk: bool, delays: Delays)
    requires StopsAt(stop, max, replies)
    ensures CheckoutEvents(1, max, replies, workOk, delays) == TurnsUntil(stop, max, replies, workOk, delays)
    ensures CheckoutOutcome(1, max, replies, workOk) == if stop > max then Busy else Ended(replies(stop), workOk)
  {
    EventsSplit(stop, max, replies, workOk, delays);
  }

  function CheckoutOutcome(attempt: nat, max: int, replies: Replies, workOk: bool): Outcome
    decreases max - attempt
  {
    if attempt > max then Busy
    else if replies(attempt) != Refused then Ended(replies(attempt), workOk)
    else CheckoutOutcome(attempt + 1, max, replies, workOk)
  }

  /** The first answer within the limit that is no refusal. */
  ghost predicate FirstAnswer(attempt: nat, max: int, replies: Replies, reply: Reply) {
    exists i: nat :: attempt <= i <= max && replies(i) == reply && forall j: nat :: attempt <= j < i ==> replies(j) == Refused
  }

  ghost predicate AllRefused(attempt: nat, max: int, replies: Replies) {
    forall i: nat :: attempt <= i <= max ==> replies(i) == Refused
  }

  /** After a refusal the first answer is that of the attempts that follow. */
  lemma FirstAnswerLater(attempt: nat, max: int, replies: Replies, reply: Reply)
    requires attempt <= max && replies(attempt) == Refused && reply != Refused
    ensures FirstAnswer(attempt, max, replies, reply) <==> FirstAnswer(attempt + 1, max, replies, reply)
  {
    if FirstAnswer(attempt + 1, max, replies, reply) {
      var i: nat :| attempt + 1 <= i <= max && replies(i) == reply && forall j: nat :: attempt + 1 <= j < i ==> replies(j) == Refused;
      assert forall j: nat :: attempt <= j < i ==> replies(j) == Refused;
    }
  }

  lemma OneTurnMore(start: seq<Event>, before: seq<Event>, attempt: nat, max: int, replies: Replies, workOk: bool, delays: Delays)
    requires 1 <= attempt && before == start + TurnsBefore(attempt, max, replies, workOk, delays)
    ensures before + Turn(attempt, max, replies, workOk, delays) == start + TurnsBefore(attempt + 1, max, replies, workOk, delays)
    ensures attempt <= max ==>
              before + Turn(attempt, max, replies, workOk, delays) == start + TurnsUntil(attempt, max, replies, workOk, delays)
  {
    var turns, turn := TurnsBefore(attempt, max, replies, workOk, delays), Turn(attempt, max, replies, workOk, delays);
    assert (start + turns) + turn == start + (turns + turn);
  }

  /** One caller's connections as its events leave them. */
  class LockCaller {
    var events: seq<Event>

    constructor ()
      ensures events == []
    {
      events := [];
    }

    method Attempt(reply: Reply, workOk: bool)
      modifies this
      ensures events == old(events) + AttemptEvents(reply, workOk)
    {
      ghost var before := events;
      events := events + [Connect];
      events := events + [Try(reply)];
      if reply == Granted {
        events := events + [Work(workOk)];
        events := events + [Unlock];
      }
      events := events + [Release];
      assert events == before + AttemptEvents(reply, workOk);
    }

    method TakeTurn(attempt: nat, max: int, replies: Replies, workOk: bool, delays: Delays)
      modifies this
      ensures events == old(events) + Turn(attempt, max, replies, workOk, delays)
    {
      Attempt(replies(attempt), workOk);
      if replies(attempt) == Refused && attempt < max {
        events := events + [Sleep(delays(attempt))];
      }
    }

    method AttemptUpTo(max: int, replies: Replies, workOk: bool, delays: Delays) returns (outcome: Outcome, ghost stop: nat)
      modifies this
      ensures StopsAt(stop, max, replies)
      ensures events == old(events) + TurnsUntil(stop, max, replies, workOk, delays)
      ensures outcome == if stop > max then Busy else Ended(replies(stop), workOk)
    {
      var attempt: nat := 1;
      while attempt <= max
        invariant 1 <= attempt && (attempt <= max + 1 || attempt == 1)
        invariant forall i: nat :: 1 <= i < attempt ==> replies(i) == Refused
        invariant events == old(events) + TurnsBefore(attempt, max, replies, workOk, delays)
        decreases max - attempt
      {
        ghost var before := events;
        TakeTurn(attempt, max, replies, workOk, delays);
        OneTurnMore(old(events), before, attempt, max, replies, workOk, delays);
        if replies(attempt) != Refused {
          return Ended(replies(attempt), workOk), attempt;
        }
        attempt := attempt + 1;
      }
      outcome, stop := Busy, attempt;
    }

    method WithReservationCheckoutLock(
        reservationId: RawId, maxAttempts: Option<int>, replies: Replies, workOk: bool, delays: Delays)
      returns (r: Result<Outcome, LockError>)
      modifies this
      ensures !Lockable(reservationId) ==> r == Err(InvalidReservationId) && events == old(events)
      ensures Lockable(reservationId) ==>
                var max := if maxAttempts.Some? then maxAttempts.value else MAX_ATTEMPTS;
                && r == Ok(CheckoutOutcome(1, max, replies, workOk))
                && events == old(events) + CheckoutEvents(1, max, replies, workOk, delays)
    {
      if !reservationId.Whole? || reservationId.n <= 0 {
        return Err(InvalidReservationId);
      }
      var max := if maxAttempts.Some? then maxAttempts.value else MAX_ATTEMPTS;
      var outcome, stop := AttemptUpTo(max, replies, workOk, delays);
      EventsUntilStop(stop, max, replies, workOk, delays);
      r := Ok(outcome);
    }

    method WithJobLock(jobKey: string, reply: Reply, workOk: bool) returns (r: Result<Outcome, LockError>)
      modifies this
      ensures Blank(jobKey) ==> r == Err(InvalidJobKey) && events == old(events)
      ensures !Blank(jobKey) ==>
                && r == Ok(if reply == Refused then Skipped else Ended(reply, workOk))
                && events == old(events) + AttemptEvents(reply, workOk)
    {
      TrimOfBlank(jobKey);
      if Trim(jobKey) == "" {
        return Err(InvalidJobKey);
      }
      Attempt(reply, workOk);
      if reply == Refused {
        return Ok(Skipped);
      }
      r := Ok(Ended(reply, workOk));
    }
  }

  // ---------- Discipline of the connection ----------

  datatype Connection = Absent | Clean | Holding | Misused

  function Next(c: Connection, e: Event): Connection {
    match (c, e)
    case (Absent, Connect) => Clean
    case (Clean, Try(reply)) => if reply == Granted then Holding else Clean
    case (Holding, Work(_)) => Holding
    case (Holding, Unlock) => Clean
    case (Clean, Release) => Absent
    case (Absent, Sleep(_)) => Absent
    case _ => Misused
  }

  function After(c: Connection, events: seq<Event>): Connection
    decreases |events|
  {
    if events == [] then c else After(Next(c, events[0]), events[1..])
  }

  function Works(events: seq<Event>): nat {
    if events == [] then 0 else (if events[0].Work? then 1 else 0) + Works(events[1..])
  }

  function SleepTotal(events: seq<Event>): int {
    if events == [] then 0 else (if events[0].Sleep? then events[0].ms else 0) + SleepTotal(events[1..])
  }

  lemma {:induction false} AfterConcat(c: Connection, a: seq<Event>, b: seq<Event>)
    ensures After(c, a + b) == After(After(c, a), b)
    ensures Works(a + b) == Works(a) + Works(b) && SleepTotal(a + b) == SleepTotal(a) + SleepTotal(b)
    decreases |a|
  {
    if a == [] {
      assert a + b == b;
    } else {
      AfterConcat(Next(c, a[0]), a[1..], b);
      assert (a + b)[1..] == a[1..] + b;
    }
  }

  lemma Unfold(c: Connection, e: Event, rest: seq<Event>)
    ensures After(c, [e] + rest) == After(Next(c, e), rest)
    ensures Works([e] + rest) == (if e.Work? then 1 else 0) + Works(rest)
    ensures SleepTotal([e] + rest) == (if e.Sleep? then e.ms else 0) + SleepTotal(rest)
  {
    assert ([e] + rest)[1..] == rest;
  }

  lemma TurnIsDisciplined(attempt: nat, max: int, replies: Replies, workOk: bool, delays: Delays)
    ensures var e := Turn(attempt, max, replies, workOk, delays);
            && After(Absent, e) == Absent && Works(e) == (if replies(attempt) == Granted then 1 else 0)
            && SleepTotal(e) == if replies(attempt) == Refused && attempt < max then delays(attempt) else 0
  {
    AttemptIsDisciplined(replies(attempt), workOk);
    if replies(attempt) == Refused && attempt < max {
      RefusedAttempt(delays(attempt), workOk);
    } else {
      assert Turn(attempt, max, replies, workOk, delays) == AttemptEvents(replies(attempt), workOk);
    }
  }

  lemma RefusedAttempt(ms: int, workOk: bool)
    ensures var e := AttemptEvents(Refused, workOk) + [Sleep(ms)];
            After(Absent, e) == Absent && Works(e) == 0 && SleepTotal(e) == ms
  {
    Unfold(Absent, Sleep(ms), []);
    Unfold(Clean, Release, [Sleep(ms)] + []);
    Unfold(Clean, Try(Refused), [Release] + ([Sleep(ms)] + []));
    Unfold(Absent, Connect, [Try(Refused)] + ([Release] + ([Sleep(ms)] + [])));
    assert AttemptEvents(Refused, workOk) + [Sleep(ms)] == [Connect] + ([Try(Refused)] + ([Release] + ([Sleep(ms)] + [])));
  }

  /** One attempt, and so a whole job run, ends with its client back and unlocked, also when the try throws. */
  lemma AttemptIsDisciplined(reply: Reply, ok: bool)
    ensures var e := AttemptEvents(reply, ok);
            After(Absent, e) == Absent && Works(e) == (if reply == Granted then 1 else 0) && SleepTotal(e) == 0
  {
    Unfold(Clean, Release, []);
    if reply == Granted {
      Unfold(Holding, Unlock, [Release] + []);
      Unfold(Holding, Work(ok), [Unlock] + ([Release] + []));
      Unfold(Clean, Try(reply), [Work(ok)] + ([Unlock] + ([Release] + [])));
      Unfold(Absent, Connect, [Try(reply)] + ([Work(ok)] + ([Unlock] + ([Release] + []))));
      assert [Connect, Try(reply), Work(ok), Unlock, Release]
          == [Connect] + ([Try(reply)] + ([Work(ok)] + ([Unlock] + ([Release] + []))));
    } else {
      Unfold(Clean, Try(reply), [Release] + []);
      Unfold(Absent, Connect, [Try(reply)] + ([Release] + []));
      assert [Connect, Try(reply), Release] == [Connect] + ([Try(reply)] + ([Release] + []));
    }
  }

  /** An attempt connects, gets the answer it gets, and works as its work ends, if at all. */
  lemma AttemptHappens(reply: Reply, ok: bool)
    ensures var e := AttemptEvents(reply, ok);
            && Connect in e && Release in e && (Work(ok) in e <==> reply == Granted) && Work(!ok) !in e
            && forall r :: Try(r) in e <==> r == reply
  {
    var e := AttemptEvents(reply, ok);
    assert e[0] == Connect && e[1] == Try(reply) && e[|e| - 1] == Release;
    if reply == Granted { assert e[2] == Work(ok); }
  }

  /**
   * On every exit path the connection ends absent: each client that was borrowed went back, unlocked, before
   * any sleep. The first answer within the limit that is no refusal decides: a grant means the work happened
   * once and its own result, a query that throws is passed on, and no such answer means busy.
   */
  lemma {:induction false} CheckoutIsDisciplined(attempt: nat, max: int, replies: Replies, workOk: bool, delays: Delays)
    ensures var e := CheckoutEvents(attempt, max, replies, workOk, delays);
            After(Absent, e) == Absent && Works(e) == if FirstAnswer(attempt, max, replies, Granted) then 1 else 0
    ensures CheckoutOutcome(attempt, max, replies, workOk)
         == if FirstAnswer(attempt, max, replies, Granted) then (if workOk then Normal else Threw)
            else if FirstAnswer(attempt, max, replies, TryThrows) then Threw else Busy
    decreases max - attempt
  {
    if attempt <= max {
      TurnIsDisciplined(attempt, max, replies, workOk, delays);
      if replies(attempt) == Refused {
        CheckoutIsDisciplined(attempt + 1, max, replies, workOk, delays);
        AfterConcat(Absent, Turn(attempt, max, replies, workOk, delays), CheckoutEvents(attempt + 1, max, replies, workOk, delays));
        FirstAnswerLater(attempt, max, replies, Granted);
        FirstAnswerLater(attempt, max, replies, TryThrows);
      }
    }
  }

  // ---------- Total waiting ----------

  /** Least and greatest total sleep between attempt and max, if none of them is granted. */
  function Least(attempt: nat, max: int): int
    decreases max - attempt
  {
    if attempt >= max then 0 else Window(attempt) / 2 + Least(attempt + 1, max)
  }

  function Greatest(attempt: nat, max: int): int
    decreases max - attempt
  {
    if attempt >= max then 0 else Window(attempt) - 1 + Greatest(attempt + 1, max)
  }

  /** The default delays of a caller whose random draws are given. */
  function DefaultDelays(draws: nat -> Draw): Delays {
    (attempt: nat) => CheckoutLockDelayMs(attempt, draws(attempt))
  }

  lemma {:induction false} SleepRange(attempt: nat, max: int, replies: Replies, workOk: bool, draws: nat -> Draw)
    ensures var total := SleepTotal(CheckoutEvents(attempt, max, replies, workOk, DefaultDelays(draws)));
            && 0 <= total <= Greatest(attempt, max)
            && (AllRefused(attempt, max, replies) ==> Least(attempt, max) <= total)
            && (AllRefused(attempt, max, replies) && (forall i :: draws(i) == 0.0) ==> total == Least(attempt, max))
            && (AllRefused(attempt, max, replies) && (forall i :: draws(i) == 0.995) ==> total == Greatest(attempt, max))
    decreases max - attempt
  {
    GreatestIsNatural(attempt, max);
    if attempt <= max {
      var delays := DefaultDelays(draws);
      TurnIsDisciplined(attempt, max, replies, workOk, delays);
      if replies(attempt) == Refused {
        WindowValues(attempt);
        DelayRange(attempt, draws(attempt));
        SleepRange(attempt + 1, max, replies, workOk, draws);
        AfterConcat(Absent, Turn(attempt, max, replies, workOk, delays), CheckoutEvents(attempt + 1, max, replies, workOk, delays));
      }
    }
  }

  lemma {:induction false} GreatestIsNatural(attempt: nat, max: int)
    ensures 0 <= Greatest(attempt, max)
    decreases max - attempt
  {
    WindowValues(attempt);
    if attempt < max { GreatestIsNatural(attempt + 1, max); }
  }

  lemma {:induction false} TotalsFromFour(attempt: nat, max: int)
    requires 4 <= attempt <= max
    ensures Least(attempt, max) == 100 * (max - attempt) && Greatest(attempt, max) == 199 * (max - attempt)
    decreases max - attempt
  {
    WindowValues(attempt);
    if attempt < max { TotalsFromFour(attempt + 1, max); }
  }

  lemma Totals(max: int)
    requires 4 <= max
    ensures Least(1, max) == 87 + 100 * (max - 4) && Greatest(1, max) == 172 + 199 * (max - 4)
  {
    TotalsFromFour(4, max);
    WindowValues(1);
    WindowValues(2);
    WindowValues(3);
    assert Least(1, max) == 12 + Least(2, max) && Least(2, max) == 25 + Least(3, max) && Least(3, max) == 50 + Least(4, max);
    assert Greatest(1, max) == 24 + Greatest(2, max) && Greatest(2, max) == 49 + Greatest(3, max);
    assert Greatest(3, max) == 99 + Greatest(4, max);
  }

  /**
   * A caller that gives up after n >= 4 attempts has waited at least 87 + 100(n - 4) and at most
   * 172 + 199(n - 4) milliseconds; both are attained, and no caller waits longer.
   */
  lemma WaitingIsBounded(max: int, replies: Replies, workOk: bool, draws: nat -> Draw)
    requires 4 <= max
    ensures var total := SleepTotal(CheckoutEvents(1, max, replies, workOk, DefaultDelays(draws)));
            && total <= 172 + 199 * (max - 4) < 175 + 200 * (max - 4)
            && (AllRefused(1, max, replies) ==> 87 + 100 * (max - 4) <= total)
            && (AllRefused(1, max, replies) && (forall i :: draws(i) == 0.0) ==> total == 87 + 100 * (max - 4))
            && (AllRefused(1, max, replies) && (forall i :: draws(i) == 0.995) ==> total == 172 + 199 * (max - 4))
  {
    Totals(max);
    SleepRange(1, max, replies, workOk, draws);
  }

  /** With the shipped limit and delays: never longer than 7336 ms, and at least 3687 ms before giving up. */
  lemma DefaultWaiting(replies: Replies, workOk: bool, draws: nat -> Draw)
    ensures var total := SleepTotal(CheckoutEvents(1, MAX_ATTEMPTS, replies, workOk, DefaultDelays(draws)));
            total <= 7336 && (AllRefused(1, 40, replies) ==> 3687 <= total)
  {
    WaitingIsBounded(MAX_ATTEMPTS, replies, workOk, draws);
  }

  /** The windows of the sleeps between attempt and max. */
  function Windows(attempt: nat, max: int): int
    decreases max - attempt
  {
    if attempt >= max then 0 else Window(attempt) + Windows(attempt + 1, max)
  }

  lemma {:induction false} SleepWithinWindows(attempt: nat, max: int, replies: Replies, workOk: bool, delays: Delays)
    requires forall k: nat :: 0 <= delays(k) <= Window(k)
    ensures 0 <= SleepTotal(CheckoutEvents(attempt, max, replies, workOk, delays)) <= Windows(attempt, max)
    decreases max - attempt
  {
    WindowsNatural(attempt, max);
    if attempt <= max {
      TurnIsDisciplined(attempt, max, replies, workOk, delays);
      if replies(attempt) == Refused {
        SleepWithinWindows(attempt + 1, max, replies, workOk, delays);
        AfterConcat(Absent, Turn(attempt, max, replies, workOk, delays), CheckoutEvents(attempt + 1, max, replies, workOk, delays));
      }
    }
  }

  lemma {:induction false} WindowsNatural(attempt: nat, max: int)
    ensures 0 <= Windows(attempt, max)
    decreases max - attempt
  {
    WindowValues(attempt);
    if attempt < max { WindowsNatural(attempt + 1, max); }
  }

  lemma {:induction false} WindowsFromFour(attempt: nat, max: int)
    requires 4 <= attempt <= max
    ensures Windows(attempt, max) == 200 * (max - attempt)
    decreases max - attempt
  {
    WindowValues(attempt);
    if attempt < max { WindowsFromFour(attempt + 1, max); }
  }

  /** Even when rounding takes each delay to the end of its window, n attempts sleep at most 175 + 200(n - 4) ms. */
  lemma WaitingWithRounding(max: int, replies: Replies, workOk: bool, delays: Delays)
    requires 4 <= max && forall k: nat :: 0 <= delays(k) <= Window(k)
    ensures SleepTotal(CheckoutEvents(1, max, replies, workOk, delays)) <= 175 + 200 * (max - 4)
  {
    SleepWithinWindows(1, max, replies, workOk, delays);
    WindowsFromFour(4, max);
    WindowValues(1);
    WindowValues(2);
    WindowValues(3);
    assert Windows(1, max) == 25 + Windows(2, max) && Windows(2, max) == 50 + Windows(3, max);
    assert Windows(3, max) == 100 + Windows(4, max);
  }
}
