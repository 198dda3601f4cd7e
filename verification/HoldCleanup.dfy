/**
 * Cleanup of processing holds whose time is over: the pass works from a snapshot of candidates and
 * from what Stripe says, while other actors keep changing the same rows through the status service.
 */
module HoldCleanup {
  import opened Results
  import opened ReservationStatus

  datatype Row = Row(status: Status, holdExpiresAt: int)

  type Rows = map<nat, Row>

  datatype ChangeError = NotFound | RefundInProgress | InvalidTransition | DatabaseError

  /** Statuses a reservation may move to while a refund is pending. */
  predicate AllowedDuringPendingRefund(to: Status) {
    to in {Refunded, Paid, ManualReview, Confirmed, CarPrepared}
  }

  /** A request to the status service; `refundPending` and `dbFails` are what it finds. */
  datatype Change = Change(id: nat, to: Status, holdExpiresAt: Option<int>, refundPending: bool, dbFails: bool)

  function Verdict(rows: Rows, c: Change): Result<(), ChangeError> {
    if c.dbFails then Err(DatabaseError)
    else if c.id !in rows then Err(NotFound)
    else if rows[c.id].status != c.to && c.refundPending && !AllowedDuringPendingRefund(c.to) then Err(RefundInProgress)
    else if !Allowed(rows[c.id].status, c.to) then Err(InvalidTransition)
    else Ok(())
  }

  function Applied(rows: Rows, c: Change): Rows {
    if Verdict(rows, c).Err? then rows
    else rows[c.id := Row(c.to, if c.holdExpiresAt.Some? then c.holdExpiresAt.value else rows[c.id].holdExpiresAt)]
  }

  /** Nothing is different but the one row, which is there in both. */
  predicate Elsewhere(a: Rows, b: Rows, id: nat) {
    id in a && a.Keys == b.Keys && forall i :: i in a && i != id ==> a[i] == b[i]
  }

  function AppliedAll(rows: Rows, changes: seq<Change>): Rows {
    if changes == [] then rows else AppliedAll(Applied(rows, changes[0]), changes[1..])
  }

  datatype SessionStatus = Open | SessionExpired | Complete

  datatype StripeReply = RetrieveFails | Session(paid: bool, status: SessionStatus)

  // What finalization does in its own transaction: a status path, and the reason it reports.
  datatype FinalizeReply = FinalizeThrows | FinalizeReply(path: seq<Status>, counted: bool)

  /** Everything a visit of one candidate meets. */
  datatype Meeting = Meeting(
    others: seq<Change>,     // changes by webhooks, customers and staff before this visit writes
    stripe: StripeReply, finalize: FinalizeReply, refundPending: bool, dbFails: bool)

  datatype Candidate = Candidate(id: nat, stripeSessionId: Option<string>)

  datatype Outcome = NoSession | Finalized | NotFinalized | Kept | Expired | Rejected | Failed | LeftAlone

  predicate LegalPath(from: Status, path: seq<Status>)
    decreases |path|
  {
    path == [] || (Allowed(from, path[0]) && LegalPath(path[0], path[1..]))
  }

  function Finalize(rows: Rows, id: nat, reply: FinalizeReply): (Rows, Outcome) {
    if reply.FinalizeThrows? || id !in rows || !LegalPath(rows[id].status, reply.path) then (rows, Failed)
    else
      var rows' := if reply.path == [] then rows else rows[id := rows[id].(status := reply.path[|reply.path| - 1])];
      (rows', if reply.counted then Finalized else NotFinalized)
  }

  function ExpireChange(id: nat, now: int, m: Meeting): Change {
    Change(id, Status.Expired, Some(now), m.refundPending, m.dbFails)
  }

  /** One turn of the loop. */
  function Visit(rows: Rows, c: Candidate, m: Meeting, now: int): (Rows, Outcome) {
    var rows1 := AppliedAll(rows, m.others);
    if c.stripeSessionId == None then (rows1, NoSession)
    else if m.stripe.RetrieveFails? then (rows1, Failed)
    else if m.stripe.paid then Finalize(rows1, c.id, m.finalize)
    else if m.stripe.status == Open then (rows1, Kept)
    else if m.stripe.status == SessionExpired then
      var change := ExpireChange(c.id, now, m);
      match Verdict(rows1, change)
      case Ok(_) => (Applied(rows1, change), Outcome.Expired)
      case Err(e) => (rows1, if e == InvalidTransition then Rejected else Failed)
    else (rows1, LeftAlone)
  }

  function Pass(rows: Rows, cs: seq<Candidate>, ms: seq<Meeting>, now: int): (Rows, seq<Outcome>)
    requires |cs| == |ms|
    decreases |cs|
  {
    if cs == [] then (rows, [])
    else
      var (rows1, outcome) := Visit(rows, cs[0], ms[0], now);
      var (rows2, outcomes) := Pass(rows1, cs[1..], ms[1..], now);
      (rows2, [outcome] + outcomes)
  }

  lemma PassStep(rows: Rows, cs: seq<Candidate>, ms: seq<Meeting>, now: int, seen: seq<Outcome>)
    requires |cs| == |ms| && cs != []
    ensures var (rows1, outcome) := Visit(rows, cs[0], ms[0], now);
            && Pass(rows, cs, ms, now).0 == Pass(rows1, cs[1..], ms[1..], now).0
            && seen + Pass(rows, cs, ms, now).1 == (seen + [outcome]) + Pass(rows1, cs[1..], ms[1..], now).1
  {
    var (rows1, outcome) := Visit(rows, cs[0], ms[0], now);
    var rest := Pass(rows1, cs[1..], ms[1..], now).1;
    assert seen + ([outcome] + rest) == (seen + [outcome]) + rest;
  }

  function Count(outcomes: seq<Outcome>, o: Outcome): nat {
    multiset(outcomes)[o]
  }

  lemma CountMore(seen: seq<Outcome>, outcome: Outcome)
    ensures forall o :: Count(seen + [outcome], o) == Count(seen, o) + if o == outcome then 1 else 0
  {
  }

  datatype Report = Report(checked: nat, expired: nat, finalized: nat, kept: nat)

  class ReservationTable {
    var rows: Rows

    constructor (initial: Rows)
      ensures rows == initial
    {
      rows := initial;
    }

    method ChangeStatus(c: Change) returns (r: Result<(), ChangeError>)
      modifies this
      ensures r == Verdict(old(rows), c) && rows == Applied(old(rows), c)
      ensures r.Ok? ==> c.id in rows && rows[c.id].status == c.to && Elsewhere(old(rows), rows, c.id)
      ensures r.Ok? && c.holdExpiresAt.Some? ==> rows[c.id].holdExpiresAt == c.holdExpiresAt.value
      ensures r.Ok? && c.holdExpiresAt.None? ==> rows[c.id].holdExpiresAt == old(rows)[c.id].holdExpiresAt
      ensures r.Err? ==> rows == old(rows)
    {
      if c.dbFails {
        return Err(DatabaseError);
      }
      if c.id !in rows {
        return Err(NotFound);
      }
      var row := rows[c.id];
      if row.status != c.to && c.refundPending && !AllowedDuringPendingRefund(c.to) {
        return Err(RefundInProgress);
      }
      if AssertTransition(Some(Known(row.status)), Known(c.to)).Err? {
        return Err(InvalidTransition);
      }
      rows := rows[c.id := Row(c.to, if c.holdExpiresAt.Some? then c.holdExpiresAt.value else row.holdExpiresAt)];
      r := Ok(());
    }

    /** Other actors at work. */
    method Interfere(changes: seq<Change>)
      modifies this
      ensures rows == AppliedAll(old(rows), changes)
    {
      var i := 0;
      while i < |changes|
        invariant 0 <= i <= |changes|
        invariant AppliedAll(rows, changes[i..]) == AppliedAll(old(rows), changes)
      {
        assert changes[i..][0] == changes[i] && changes[i..][1..] == changes[i + 1..];
        var _ := ChangeStatus(changes[i]);
        i := i + 1;
      }
    }

    method VisitCandidate(c: Candidate, m: Meeting, now: int) returns (outcome: Outcome)
      modifies this
      ensures (rows, outcome) == Visit(old(rows), c, m, now)
    {
      Interfere(m.others);
      if c.stripeSessionId == None {
        return NoSession;
      }
      if m.stripe.RetrieveFails? {
        return Failed;
      }
      if m.stripe.paid {
        var (rows', result) := Finalize(rows, c.id, m.finalize);
        rows := rows';
        return result;
      }
      if m.stripe.status == Open {
        return Kept;
      }
      if m.stripe.status == SessionExpired {
        var changed := ChangeStatus(ExpireChange(c.id, now, m));
        if changed.Ok? {
          return Outcome.Expired;
        }
        if changed.error != InvalidTransition {
          return Failed;
        }
        return Rejected;
      }
      outcome := LeftAlone;
    }

    method ReconcileProcessingStripeReservations(cs: seq<Candidate>, ms: seq<Meeting>, now: int) returns (r: Report)
      requires |cs| == |ms|
      modifies this
      ensures var (rows', outcomes) := Pass(old(rows), cs, ms, now);
              && rows == rows'
              && r == Report(|cs|, Count(outcomes, Outcome.Expired), Count(outcomes, Finalized), Count(outcomes, Kept))
    {
      var expired, finalized, kept := 0, 0, 0;
      ghost var seen: seq<Outcome> := [];
      var i := 0;
      while i < |cs|
        invariant 0 <= i <= |cs|
        invariant Pass(old(rows), cs, ms, now).0 == Pass(rows, cs[i..], ms[i..], now).0
        invariant Pass(old(rows), cs, ms, now).1 == seen + Pass(rows, cs[i..], ms[i..], now).1
        invariant expired == Count(seen, Outcome.Expired) && finalized == Count(seen, Finalized) && kept == Count(seen, Kept)
      {
        assert cs[i..][0] == cs[i] && cs[i..][1..] == cs[i + 1..];
        assert ms[i..][0] == ms[i] && ms[i..][1..] == ms[i + 1..];
        ghost var before := rows;
        var outcome := VisitCandidate(cs[i], ms[i], now);
        match outcome {
          case Expired => expired := expired + 1;
          case Finalized => finalized := finalized + 1;
          case Kept => kept := kept + 1;
          case _ =>
        }
        PassStep(before, cs[i..], ms[i..], now, seen);
        CountMore(seen, outcome);
        seen := seen + [outcome];
        i := i + 1;
      }
      r := Report(|cs|, expired, finalized, kept);
    }

    /** A guest gives up the hold that was found active; by now the row may have moved on. */
    method ReleaseActiveReservation(found: Option<nat>, m: Meeting, now: int) returns (r: Result<bool, ChangeError>)
      modifies this
      ensures found == None ==> r == Ok(false) && rows == old(rows)
      ensures found.Some? ==>
                var change := Change(found.value, Cancelled, Some(now), m.refundPending, m.dbFails);
                var rows1 := AppliedAll(old(rows), m.others);
                && rows == Applied(rows1, change)
                && r == match Verdict(rows1, change) { case Ok(_) => Ok(true) case Err(e) => Err(e) }
      ensures r == Ok(true) ==>
                && found.value in rows && rows[found.value] == Row(Cancelled, now)
                && Elsewhere(AppliedAll(old(rows), m.others), rows, found.value)
    {
      if found == None {
        return Ok(false);
      }
      Interfere(m.others);
      var changed := ChangeStatus(Change(found.value, Cancelled, Some(now), m.refundPending, m.dbFails));
      r := match changed { case Ok(_) => Ok(true) case Err(e) => Err(e) };
    }
  }

  // ---------- Safety of the pass ----------

  lemma FutureTransitive(a: Status, b: Status)
    requires b in Future(a)
    ensures Future(b) <= Future(a)
  {
  }

  lemma AppliedStaysInFuture(rows: Rows, c: Change, id: nat)
    requires id in rows
    ensures id in Applied(rows, c) && Applied(rows, c)[id].status in Future(rows[id].status)
  {
    ConnectedByEdge(rows[id].status, rows[id].status);
    FutureIsExact(rows[id].status, rows[id].status);
    if Verdict(rows, c).Ok? && c.id == id {
      ConnectedByEdge(rows[id].status, c.to);
      FutureIsExact(rows[id].status, c.to);
    }
  }

  lemma {:induction false} AppliedAllStaysInFuture(rows: Rows, changes: seq<Change>, id: nat)
    requires id in rows
    ensures id in AppliedAll(rows, changes) && AppliedAll(rows, changes)[id].status in Future(rows[id].status)
    decreases |changes|
  {
    if changes == [] {
      ConnectedByEdge(rows[id].status, rows[id].status);
      FutureIsExact(rows[id].status, rows[id].status);
    } else {
      AppliedStaysInFuture(rows, changes[0], id);
      var rows1 := Applied(rows, changes[0]);
      AppliedAllStaysInFuture(rows1, changes[1..], id);
      FutureTransitive(rows[id].status, rows1[id].status);
    }
  }

  lemma {:induction false} PathStaysInFuture(from: Status, path: seq<Status>)
    requires path != [] && LegalPath(from, path)
    ensures path[|path| - 1] in Future(from)
    decreases |path|
  {
    ConnectedByEdge(from, path[0]);
    FutureIsExact(from, path[0]);
    if |path| > 1 {
      PathStaysInFuture(path[0], path[1..]);
      FutureTransitive(from, path[0]);
    }
  }

  lemma VisitStaysInFuture(rows: Rows, c: Candidate, m: Meeting, now: int, id: nat)
    requires id in rows
    ensures id in Visit(rows, c, m, now).0 && Visit(rows, c, m, now).0[id].status in Future(rows[id].status)
  {
    AppliedAllStaysInFuture(rows, m.others, id);
    var rows1 := AppliedAll(rows, m.others);
    ConnectedByEdge(rows1[id].status, rows1[id].status);
    FutureIsExact(rows1[id].status, rows1[id].status);
    AppliedStaysInFuture(rows1, ExpireChange(c.id, now, m), id);
    if c.id == id && m.finalize.FinalizeReply? && m.finalize.path != [] && LegalPath(rows1[id].status, m.finalize.path) {
      PathStaysInFuture(rows1[id].status, m.finalize.path);
    }
    FutureTransitive(rows[id].status, rows1[id].status);
  }

  lemma {:induction false} PassStaysInFuture(rows: Rows, cs: seq<Candidate>, ms: seq<Meeting>, now: int, id: nat)
    requires |cs| == |ms| && id in rows
    ensures id in Pass(rows, cs, ms, now).0 && Pass(rows, cs, ms, now).0[id].status in Future(rows[id].status)
    decreases |cs|
  {
    if cs == [] {
      ConnectedByEdge(rows[id].status, rows[id].status);
      FutureIsExact(rows[id].status, rows[id].status);
    } else {
      VisitStaysInFuture(rows, cs[0], ms[0], now, id);
      var rows1 := Visit(rows, cs[0], ms[0], now).0;
      PassStaysInFuture(rows1, cs[1..], ms[1..], now, id);
      FutureTransitive(rows[id].status, rows1[id].status);
    }
  }

  /**
   * Whatever Stripe answers and whoever interferes, a reservation that has left the holds by any point
   * of the pass is not expired from there on: stale snapshots cost nothing.
   */
  lemma PassNeverExpiresPaid(rows: Rows, cs: seq<Candidate>, ms: seq<Meeting>, now: int, id: nat, k: nat)
    requires |cs| == |ms| && id in rows && k <= |cs|
    requires var mid := Pass(rows, cs[..k], ms[..k], now).0;
             id in mid ==> !IsHold(mid[id].status) && mid[id].status != Status.Expired
    ensures id in Pass(rows, cs, ms, now).0 && Pass(rows, cs, ms, now).0[id].status != Status.Expired
  {
    PassStaysInFuture(rows, cs[..k], ms[..k], now, id);
    var mid := Pass(rows, cs[..k], ms[..k], now).0;
    PassSplit(rows, cs, ms, now, k);
    PassStaysInFuture(mid, cs[k..], ms[k..], now, id);
    assert Status.Expired !in Future(mid[id].status);
  }

  lemma {:induction false} PassSplit(rows: Rows, cs: seq<Candidate>, ms: seq<Meeting>, now: int, k: nat)
    requires |cs| == |ms| && k <= |cs|
    ensures var first := Pass(rows, cs[..k], ms[..k], now);
            var second := Pass(first.0, cs[k..], ms[k..], now);
            Pass(rows, cs, ms, now) == (second.0, first.1 + second.1)
    decreases |cs|
  {
    if k == 0 {
      assert cs[0..] == cs && ms[0..] == ms && cs[..0] == [];
      assert [] + Pass(rows, cs, ms, now).1 == Pass(rows, cs, ms, now).1;
    } else {
      var (rows1, outcome) := Visit(rows, cs[0], ms[0], now);
      PassSplit(rows1, cs[1..], ms[1..], now, k - 1);
      assert cs[1..][..k - 1] == cs[..k][1..] && ms[1..][..k - 1] == ms[..k][1..];
      assert cs[1..][k - 1..] == cs[k..] && ms[1..][k - 1..] == ms[k..];
      var first := Pass(rows1, cs[1..][..k - 1], ms[1..][..k - 1], now);
      var second := Pass(first.0, cs[k..], ms[k..], now);
      assert [outcome] + (first.1 + second.1) == ([outcome] + first.1) + second.1;
    }
  }

  /** Whatever others did before a visit writes, the visit itself only moves the row along the graph. */
  lemma VisitStaysInFutureOfOthers(rows: Rows, c: Candidate, m: Meeting, now: int, id: nat)
    requires var mid := AppliedAll(rows, m.others); id in mid
    ensures id in Visit(rows, c, m, now).0
    ensures Visit(rows, c, m, now).0[id].status in Future(AppliedAll(rows, m.others)[id].status)
  {
    var mid := AppliedAll(rows, m.others);
    VisitStaysInFuture(mid, c, m.(others := []), now, id);
    assert Visit(mid, c, m.(others := []), now) == Visit(rows, c, m, now);
  }

  /**
   * The race inside a visit: others move the row after the Stripe snapshot and before the status change. If
   * they take it past the holds, neither this visit nor any later one expires it, whatever Stripe said.
   */
  lemma RaceNeverExpires(rows: Rows, cs: seq<Candidate>, ms: seq<Meeting>, now: int, id: nat, k: nat)
    requires |cs| == |ms| && k < |cs|
    requires var mid := AppliedAll(Pass(rows, cs[..k], ms[..k], now).0, ms[k].others);
             id in mid && !IsHold(mid[id].status) && mid[id].status != Status.Expired
    ensures id in Pass(rows, cs, ms, now).0 && Pass(rows, cs, ms, now).0[id].status != Status.Expired
  {
    var before := Pass(rows, cs[..k], ms[..k], now).0;
    var mid := AppliedAll(before, ms[k].others);
    var after := Visit(before, cs[k], ms[k], now).0;
    PassSplit(rows, cs, ms, now, k);
    VisitStaysInFutureOfOthers(before, cs[k], ms[k], now, id);
    assert cs[k..][0] == cs[k] && ms[k..][0] == ms[k];
    PassStaysInFuture(after, cs[k..][1..], ms[k..][1..], now, id);
    FutureTransitive(mid[id].status, after[id].status);
    assert Status.Expired !in Future(mid[id].status);
  }

  /** Exactly when a visit counts an expiry: Stripe expired and unpaid, and the row still a hold or expired already. */
  lemma ExpiredExactly(rows: Rows, c: Candidate, m: Meeting, now: int)
    ensures Visit(rows, c, m, now).1 == Outcome.Expired <==>
              && c.stripeSessionId.Some? && m.stripe == Session(false, SessionExpired) && !m.dbFails
              && var rows1 := AppliedAll(rows, m.others);
                 && c.id in rows1
                 && (rows1[c.id].status == Status.Expired || (IsHold(rows1[c.id].status) && !m.refundPending))
  {
  }

  /** A rejected expiry leaves the table as the others made it; it happens to rows that moved past the holds. */
  lemma RejectedExactly(rows: Rows, c: Candidate, m: Meeting, now: int)
    ensures var rows1 := AppliedAll(rows, m.others);
            && (Visit(rows, c, m, now).1 in {Rejected, Failed, Kept, LeftAlone, NoSession} ==> Visit(rows, c, m, now).0 == rows1)
            && (Visit(rows, c, m, now).1 == Rejected ==>
                  c.id in rows1 && !IsHold(rows1[c.id].status) && rows1[c.id].status != Status.Expired)
  {
  }

  lemma {:induction false} PassLength(rows: Rows, cs: seq<Candidate>, ms: seq<Meeting>, now: int)
    requires |cs| == |ms|
    ensures |Pass(rows, cs, ms, now).1| == |cs|
    decreases |cs|
  {
    if cs != [] { PassLength(Visit(rows, cs[0], ms[0], now).0, cs[1..], ms[1..], now); }
  }

  lemma {:induction false} CountsFit(outcomes: seq<Outcome>)
    ensures Count(outcomes, Outcome.Expired) + Count(outcomes, Finalized) + Count(outcomes, Kept) <= |outcomes|
    decreases |outcomes|
  {
    if outcomes != [] {
      CountsFit(outcomes[1..]);
      assert outcomes == [outcomes[0]] + outcomes[1..];
    }
  }

  lemma CountersFit(rows: Rows, cs: seq<Candidate>, ms: seq<Meeting>, now: int)
    requires |cs| == |ms|
    ensures var outcomes := Pass(rows, cs, ms, now).1;
            Count(outcomes, Outcome.Expired) + Count(outcomes, Finalized) + Count(outcomes, Kept) <= |cs|
  {
    PassLength(rows, cs, ms, now);
    CountsFit(Pass(rows, cs, ms, now).1);
  }

  // ---------- Independence of candidates ----------

  predicate SameAt(a: Rows, b: Rows, id: nat) {
    (id in a <==> id in b) && (id in a ==> a[id] == b[id])
  }

  lemma {:induction false} OthersLocal(a: Rows, b: Rows, changes: seq<Change>, id: nat)
    requires SameAt(a, b, id)
    ensures SameAt(AppliedAll(a, changes), AppliedAll(b, changes), id)
    decreases |changes|
  {
    if changes != [] {
      assert SameAt(Applied(a, changes[0]), Applied(b, changes[0]), id);
      OthersLocal(Applied(a, changes[0]), Applied(b, changes[0]), changes[1..], id);
    }
  }

  lemma VisitLocal(a: Rows, b: Rows, c: Candidate, m: Meeting, n: Meeting, now: int, id: nat)
    requires SameAt(a, b, id) && m.others == n.others && (c.id == id ==> m == n)
    ensures SameAt(Visit(a, c, m, now).0, Visit(b, c, n, now).0, id)
    ensures c.id == id ==> Visit(a, c, m, now).1 == Visit(b, c, n, now).1
  {
    OthersLocal(a, b, m.others, id);
  }

  /**
   * What happens to one candidate does not depend on how the visits of the other candidates go: replace
   * everything the others meet, failures included, and its outcome and its row are the same.
   */
  lemma {:induction false} CandidatesAreIndependent(
      a: Rows, b: Rows, cs: seq<Candidate>, ms: seq<Meeting>, ns: seq<Meeting>, now: int, i: nat)
    requires |cs| == |ms| == |ns| && i < |cs| && SameAt(a, b, cs[i].id)
    requires forall j, k :: 0 <= j < k < |cs| ==> cs[j].id != cs[k].id
    requires ms[i] == ns[i] && forall j :: 0 <= j < |cs| ==> ms[j].others == ns[j].others
    ensures |Pass(a, cs, ms, now).1| == |Pass(b, cs, ns, now).1| == |cs|
    ensures Pass(a, cs, ms, now).1[i] == Pass(b, cs, ns, now).1[i]
    ensures SameAt(Pass(a, cs, ms, now).0, Pass(b, cs, ns, now).0, cs[i].id)
    decreases |cs|
  {
    var id := cs[i].id;
    var a1, b1 := Visit(a, cs[0], ms[0], now).0, Visit(b, cs[0], ns[0], now).0;
    VisitLocal(a, b, cs[0], ms[0], ns[0], now, id);
    PassLength(a1, cs[1..], ms[1..], now);
    PassLength(b1, cs[1..], ns[1..], now);
    if i == 0 {
      RestLeavesAlone(a1, b1, cs[1..], ms[1..], ns[1..], now, id);
    } else {
      CandidatesAreIndependent(a1, b1, cs[1..], ms[1..], ns[1..], now, i - 1);
    }
  }

  lemma {:induction false} RestLeavesAlone(
      a: Rows, b: Rows, cs: seq<Candidate>, ms: seq<Meeting>, ns: seq<Meeting>, now: int, id: nat)
    requires |cs| == |ms| == |ns| && SameAt(a, b, id) && forall j :: 0 <= j < |cs| ==> cs[j].id != id
    requires forall j :: 0 <= j < |cs| ==> ms[j].others == ns[j].others
    ensures SameAt(Pass(a, cs, ms, now).0, Pass(b, cs, ns, now).0, id)
    decreases |cs|
  {
    if cs != [] {
      VisitLocal(a, b, cs[0], ms[0], ns[0], now, id);
      RestLeavesAlone(Visit(a, cs[0], ms[0], now).0, Visit(b, cs[0], ns[0], now).0, cs[1..], ms[1..], ns[1..], now, id);
    }
  }

  // ---------- What a change, a visit and a pass do to the table ----------

  /** When the status service accepts, in terms of the row and of what it meets. */
  lemma AcceptedExactly(rows: Rows, c: Change)
    ensures Verdict(rows, c).Ok? <==>
              && !c.dbFails && c.id in rows
              && (rows[c.id].status == c.to
                  || (c.to in Transitions(rows[c.id].status)
                      && (c.refundPending ==> c.to in {Refunded, Paid, ManualReview, Confirmed, CarPrepared})))
    ensures !c.dbFails && c.id !in rows <==> Verdict(rows, c) == Err(NotFound)
    ensures !c.dbFails && c.id in rows && rows[c.id].status != c.to && c.refundPending
              && c.to !in {Refunded, Paid, ManualReview, Confirmed, CarPrepared}
       <==> Verdict(rows, c) == Err(RefundInProgress)
  {
  }

  /** An accepted change happens, and a refused one does not. */
  lemma ChangeHappens(rows: Rows, c: Change)
    ensures Verdict(rows, c).Ok? ==>
              && c.id in rows && Elsewhere(rows, Applied(rows, c), c.id)
              && Applied(rows, c)[c.id]
                 == Row(c.to, if c.holdExpiresAt.Some? then c.holdExpiresAt.value else rows[c.id].holdExpiresAt)
    ensures Verdict(rows, c).Err? ==> Applied(rows, c) == rows
  {
  }

  /** The changes of others happen one after the other. */
  lemma {:induction false} OthersHappen(rows: Rows, changes: seq<Change>, c: Change)
    ensures AppliedAll(rows, []) == rows
    ensures AppliedAll(rows, changes + [c]) == Applied(AppliedAll(rows, changes), c)
    decreases |changes|
  {
    if changes == [] {
      assert AppliedAll(Applied(rows, c), []) == Applied(rows, c);
      assert [c][1..] == [] && [] + [c] == [c];
    } else {
      OthersHappen(Applied(rows, changes[0]), changes[1..], c);
      assert (changes + [c])[0] == changes[0] && (changes + [c])[1..] == changes[1..] + [c];
    }
  }

  /** A visit that counts an expiry leaves the candidate's row expired as of now, and every other as the others made it. */
  lemma ExpiredVisitWrites(rows: Rows, c: Candidate, m: Meeting, now: int)
    requires Visit(rows, c, m, now).1 == Outcome.Expired
    ensures var rows' := Visit(rows, c, m, now).0;
            c.id in rows' && rows'[c.id] == Row(Status.Expired, now) && Elsewhere(AppliedAll(rows, m.others), rows', c.id)
  {
    ChangeHappens(AppliedAll(rows, m.others), ExpireChange(c.id, now, m));
  }

  /** A visit that finalizes leaves the last status of the path, the expiry as it was, and nothing else changed. */
  lemma FinalizedVisitWrites(rows: Rows, c: Candidate, m: Meeting, now: int)
    requires Visit(rows, c, m, now).1 == Finalized || Visit(rows, c, m, now).1 == NotFinalized
    ensures var mid, rows' := AppliedAll(rows, m.others), Visit(rows, c, m, now).0;
            && c.stripeSessionId.Some? && m.stripe.Session? && m.stripe.paid && m.finalize.FinalizeReply?
            && Elsewhere(mid, rows', c.id) && rows'[c.id].holdExpiresAt == mid[c.id].holdExpiresAt
            && rows'[c.id].status == (if m.finalize.path == [] then mid[c.id].status else m.finalize.path[|m.finalize.path| - 1])
            && (Visit(rows, c, m, now).1 == Finalized <==> m.finalize.counted)
  {
  }

  /** A visit keeps an unpaid, open session's row, and leaves alone whatever it does not decide. */
  lemma OtherVisitsWriteNothing(rows: Rows, c: Candidate, m: Meeting, now: int)
    ensures Visit(rows, c, m, now).1 !in {Outcome.Expired, Finalized, NotFinalized} ==>
              Visit(rows, c, m, now).0 == AppliedAll(rows, m.others)
    ensures Visit(rows, c, m, now).1 == Kept <==>
              c.stripeSessionId.Some? && m.stripe.Session? && !m.stripe.paid && m.stripe.status == Open
  {
  }

  /** The table as the k-th visit finds it, and the outcome it adds. */
  lemma VisitOfPass(rows: Rows, cs: seq<Candidate>, ms: seq<Meeting>, now: int, k: nat)
    requires |cs| == |ms| && k < |cs|
    ensures |Pass(rows, cs, ms, now).1| == |cs|
    ensures var before := Pass(rows, cs[..k], ms[..k], now).0;
            && Pass(rows, cs, ms, now).1[k] == Visit(before, cs[k], ms[k], now).1
            && Pass(rows, cs, ms, now).0 == Pass(Visit(before, cs[k], ms[k], now).0, cs[k + 1..], ms[k + 1..], now).0
  {
    var before := Pass(rows, cs[..k], ms[..k], now).0;
    PassSplit(rows, cs, ms, now, k);
    PassLength(rows, cs, ms, now);
    PassLength(rows, cs[..k], ms[..k], now);
    assert cs[k..][0] == cs[k] && ms[k..][0] == ms[k] && cs[k..][1..] == cs[k + 1..] && ms[k..][1..] == ms[k + 1..];
  }

  /** A candidate counted as expired is expired when its visit ends, and at the end of the pass can only have become what expired ones can. */
  lemma ExpiredStaysInPass(rows: Rows, cs: seq<Candidate>, ms: seq<Meeting>, now: int, k: nat)
    requires |cs| == |ms| && k < |cs| && |Pass(rows, cs, ms, now).1| == |cs| && Pass(rows, cs, ms, now).1[k] == Outcome.Expired
    ensures var after := Visit(Pass(rows, cs[..k], ms[..k], now).0, cs[k], ms[k], now).0;
            cs[k].id in after && after[cs[k].id] == Row(Status.Expired, now)
    ensures cs[k].id in Pass(rows, cs, ms, now).0 && Pass(rows, cs, ms, now).0[cs[k].id].status in Future(Status.Expired)
  {
    var before := Pass(rows, cs[..k], ms[..k], now).0;
    VisitOfPass(rows, cs, ms, now, k);
    ExpiredVisitWrites(before, cs[k], ms[k], now);
    PassStaysInFuture(Visit(before, cs[k], ms[k], now).0, cs[k + 1..], ms[k + 1..], now, cs[k].id);
  }

  lemma {:induction false} QuietRestLeavesAlone(rows: Rows, cs: seq<Candidate>, ms: seq<Meeting>, now: int, id: nat)
    requires |cs| == |ms| && id in rows
    requires forall j :: 0 <= j < |cs| ==> cs[j].id != id && ms[j].others == []
    ensures id in Pass(rows, cs, ms, now).0 && Pass(rows, cs, ms, now).0[id] == rows[id]
    decreases |cs|
  {
    if cs != [] {
      QuietRestLeavesAlone(Visit(rows, cs[0], ms[0], now).0, cs[1..], ms[1..], now, id);
    }
  }

  /** When nobody else touches the table after its visit, such a candidate is expired as of now when the pass ends. */
  lemma ExpiredAtTheEnd(rows: Rows, cs: seq<Candidate>, ms: seq<Meeting>, now: int, k: nat)
    requires |cs| == |ms| && k < |cs| && |Pass(rows, cs, ms, now).1| == |cs| && Pass(rows, cs, ms, now).1[k] == Outcome.Expired
    requires forall j :: k < j < |cs| ==> cs[j].id != cs[k].id && ms[j].others == []
    ensures cs[k].id in Pass(rows, cs, ms, now).0 && Pass(rows, cs, ms, now).0[cs[k].id] == Row(Status.Expired, now)
  {
    var before := Pass(rows, cs[..k], ms[..k], now).0;
    VisitOfPass(rows, cs, ms, now, k);
    ExpiredVisitWrites(before, cs[k], ms[k], now);
    QuietRestLeavesAlone(Visit(before, cs[k], ms[k], now).0, cs[k + 1..], ms[k + 1..], now, cs[k].id);
  }
}
