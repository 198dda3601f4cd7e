/**
 * The two clocks of an unpaid booking: the hold on the car, in milliseconds, and the payment session, whose
 * end is a whole second. Every time here is read from one clock.
 */
module HoldTiming {
  import opened Results

  const RESERVATION_HOLD_MINUTES: nat := 35
  const STRIPE_CHECKOUT_EXPIRES_MINUTES: nat := 30
  const STRIPE_CHECKOUT_MIN_EXPIRES_MINUTES: nat := 30
  const MINUTE_MS: nat := 60000

  datatype TimingError = BelowStripeMinimum | NotBeforeHold

  function AssertCheckoutExpiresBeforeHold(checkoutMinutes: int, holdMinutes: int): Result<(), TimingError> {
    if checkoutMinutes < STRIPE_CHECKOUT_MIN_EXPIRES_MINUTES then Err(BelowStripeMinimum)
    else if checkoutMinutes >= holdMinutes then Err(NotBeforeHold)
    else Ok(())
  }

  /** A pair of durations that the start-up check lets through. */
  datatype Timing = Timing(checkoutMinutes: nat, holdMinutes: nat)

  predicate Accepted(c: Timing) {
    AssertCheckoutExpiresBeforeHold(c.checkoutMinutes, c.holdMinutes).Ok?
  }

  function HoldWindowMs(c: Timing): nat {
    c.holdMinutes * MINUTE_MS
  }

  /** Seconds since the epoch. */
  function CheckoutExpiresAt(c: Timing, nowMs: nat): nat {
    nowMs / 1000 + c.checkoutMinutes * 60
  }

  /** Rounding down to the second shortens a session by less than a second, and not at all on whole seconds. */
  lemma SessionLifetime(c: Timing, nowMs: nat)
    ensures var life := 1000 * CheckoutExpiresAt(c, nowMs) - nowMs;
            && c.checkoutMinutes * MINUTE_MS - 1000 < life <= c.checkoutMinutes * MINUTE_MS
            && (life == c.checkoutMinutes * MINUTE_MS <==> nowMs % 1000 == 0)
  {
  }

  /**
   * What the start-up check is for: it accepts exactly the durations under which every session created
   * together with its hold lasts the Stripe minimum, up to the rounding second, and ends before the hold.
   */
  lemma AcceptedExactly(c: Timing)
    ensures Accepted(c) <==>
              forall now: nat ::
                now + STRIPE_CHECKOUT_MIN_EXPIRES_MINUTES * MINUTE_MS - 1000 < 1000 * CheckoutExpiresAt(c, now) < now + HoldWindowMs(c)
  {
    assert 1000 * CheckoutExpiresAt(c, 0) == c.checkoutMinutes * MINUTE_MS;
    if Accepted(c) {
      forall now: nat
        ensures now + STRIPE_CHECKOUT_MIN_EXPIRES_MINUTES * MINUTE_MS - 1000 < 1000 * CheckoutExpiresAt(c, now) < now + HoldWindowMs(c)
      {
        SessionLifetime(c, now);
      }
    }
  }

  // ---------- Timed runs of one reservation ----------

  datatype State = State(clock: nat, refreshedAt: nat, holdExpiresAt: nat, sessions: seq<nat>)

  datatype Step = Tick(ms: nat) | Refresh | CreateSession

  function Apply(c: Timing, s: State, step: Step): State {
    match step
    case Tick(ms) => s.(clock := s.clock + ms)
    case Refresh => s.(refreshedAt := s.clock, holdExpiresAt := s.clock + HoldWindowMs(c))
    case CreateSession => s.(sessions := s.sessions + [CheckoutExpiresAt(c, s.clock)])
  }

  function After(c: Timing, s: State, steps: seq<Step>): State
    decreases |steps|
  {
    if steps == [] then s else After(c, Apply(c, s, steps[0]), steps[1..])
  }

  /** The slack between the two durations. */
  function SlackMs(c: Timing): int {
    (c.holdMinutes - c.checkoutMinutes) * MINUTE_MS
  }

  /** Each session of a run is created less than the slack after the latest refresh. */
  predicate CreatesInTime(c: Timing, s: State, steps: seq<Step>)
    decreases |steps|
  {
    steps != [] ==>
      && (steps[0].CreateSession? ==> s.clock - s.refreshedAt < SlackMs(c))
      && CreatesInTime(c, Apply(c, s, steps[0]), steps[1..])
  }

  predicate Started(c: Timing, s: State) {
    s.refreshedAt == s.clock && s.holdExpiresAt == s.clock + HoldWindowMs(c) && s.sessions == []
  }

  predicate Lapsed(s: State) {
    s.holdExpiresAt <= s.clock
  }

  predicate Over(s: State, expiresAt: nat) {
    1000 * expiresAt <= s.clock
  }

  /** Every session ends no later than the hold. */
  predicate Inv(c: Timing, s: State) {
    && s.refreshedAt <= s.clock && s.holdExpiresAt == s.refreshedAt + HoldWindowMs(c)
    && forall i :: 0 <= i < |s.sessions| ==> 1000 * s.sessions[i] <= s.holdExpiresAt
  }

  lemma {:induction false} RunKeepsInv(c: Timing, s: State, steps: seq<Step>)
    requires Inv(c, s) && CreatesInTime(c, s, steps)
    ensures Inv(c, After(c, s, steps))
    decreases |steps|
  {
    if steps != [] { RunKeepsInv(c, Apply(c, s, steps[0]), steps[1..]); }
  }

  /** In every run that creates its sessions in time, a lapsed hold means that every session has ended. */
  lemma LapsedHoldHasNoOpenSession(c: Timing, s: State, steps: seq<Step>)
    requires Accepted(c) && Started(c, s) && CreatesInTime(c, s, steps)
    ensures var t := After(c, s, steps);
            Lapsed(t) ==> forall i :: 0 <= i < |t.sessions| ==> Over(t, t.sessions[i])
  {
    RunKeepsInv(c, s, steps);
  }

  /**
   * For one session the exact condition, rounding included: no wait, however long, finds the hold lapsed and
   * the session still open if and only if the whole second it was created in began within the slack.
   */
  lemma WindowIsExact(c: Timing, s: State)
    requires Accepted(c) && Inv(c, s)
    ensures var t := Apply(c, s, CreateSession);
            var e := CheckoutExpiresAt(c, s.clock);
            (forall ms: nat :: Lapsed(Apply(c, t, Tick(ms))) ==> Over(Apply(c, t, Tick(ms)), e))
            <==> s.clock / 1000 * 1000 - s.refreshedAt <= SlackMs(c)
  {
    var t := Apply(c, s, CreateSession);
    var e := CheckoutExpiresAt(c, s.clock);
    if s.clock / 1000 * 1000 - s.refreshedAt > SlackMs(c) {
      var ms := if s.holdExpiresAt <= s.clock then 0 else s.holdExpiresAt - s.clock;
      var u := Apply(c, t, Tick(ms));
      SessionLifetime(c, s.clock);
      assert Lapsed(u) && !Over(u, e);
    }
  }

  const SHIPPED: Timing := Timing(STRIPE_CHECKOUT_EXPIRES_MINUTES, RESERVATION_HOLD_MINUTES)

  /** The shipped durations, 30 and 35 minutes, pass the check at start-up and leave five minutes. */
  lemma ShippedTiming()
    ensures Accepted(SHIPPED) && SlackMs(SHIPPED) == 5 * MINUTE_MS && HoldWindowMs(SHIPPED) == 35 * MINUTE_MS
    ensures forall now: nat :: 1000 * CheckoutExpiresAt(SHIPPED, now) == now - now % 1000 + 30 * MINUTE_MS
  {
  }

  // ---------- The objects that change ----------

  /** A reservation as the checkout sees it: its hold, and the ends of the payment sessions created for it. */
  class Booking {
    const timing: Timing
    var refreshedAt: nat
    var holdExpiresAt: nat
    var sessions: seq<nat>

    ghost function At(clock: nat): State
      reads this
    {
      State(clock, refreshedAt, holdExpiresAt, sessions)
    }

    constructor (timing: Timing, nowMs: nat)
      ensures this.timing == timing && Started(timing, At(nowMs))
    {
      this.timing := timing;
      refreshedAt, holdExpiresAt, sessions := nowMs, nowMs + HoldWindowMs(timing), [];
    }

    /** The expiry of a new session; created in time after the latest refresh, it ends no later than the hold. */
    method CreateCheckoutSession(nowMs: nat) returns (expiresAt: nat)
      modifies this`sessions
      ensures At(nowMs) == Apply(timing, old(At(nowMs)), CreateSession) && sessions == old(sessions) + [expiresAt]
      ensures old(Inv(timing, At(nowMs))) && nowMs - refreshedAt < SlackMs(timing) ==>
                Inv(timing, At(nowMs)) && 1000 * expiresAt <= holdExpiresAt
      ensures nowMs - 1000 < 1000 * expiresAt - timing.checkoutMinutes * MINUTE_MS <= nowMs
    {
      expiresAt := CheckoutExpiresAt(timing, nowMs);
      sessions := sessions + [expiresAt];
    }
  }

  /** Refreshes a hold: it never comes to end sooner, and so never before a session that it outlived. */
  method ExtendReservationHold(reservation: Booking?, nowMs: nat)
    modifies if reservation == null then {} else {reservation}
    ensures reservation != null ==>
              && reservation.At(nowMs) == Apply(reservation.timing, old(reservation.At(nowMs)), Refresh)
              && reservation.holdExpiresAt == nowMs + reservation.timing.holdMinutes * MINUTE_MS
              && reservation.refreshedAt == nowMs && reservation.sessions == old(reservation.sessions)
              && (old(Inv(reservation.timing, reservation.At(nowMs))) ==>
                    Inv(reservation.timing, reservation.At(nowMs)) && old(reservation.holdExpiresAt) <= reservation.holdExpiresAt)
  {
    if reservation == null {
      return;
    }
    reservation.refreshedAt := nowMs;
    reservation.holdExpiresAt := nowMs + HoldWindowMs(reservation.timing);
  }
}
