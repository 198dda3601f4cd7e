/**
 * Fleet status of one car against all its reservations: the branch table of the sync, the exact
 * condition under which a status change keeps the two in agreement, and the transactions that run it.
 */
module FleetSync {
  import opened Results
  import opened ReservationStatus

  datatype CarStatus =
    | Available | Reserved | Rented | NeedsCleaning | NeedsInspection | InMaintenance | Damaged | Inactive

  type Rows = map<nat, Status>

  predicate Physical(s: Status) {
    s == PickedUp || s == ActiveRental
  }

  predicate Booked(s: Status) {
    s == Confirmed || s == CarPrepared
  }

  /** Statuses counted as active for the fleet. */
  predicate FleetActive(s: Status) {
    Booked(s) || Physical(s)
  }

  function OthersActive(rows: Rows, id: nat): set<nat> {
    set i | i in rows && i != id && FleetActive(rows[i])
  }

  /** The status the sync leaves the car in when a reservation becomes `to`, given the other active ones. */
  function Synced(car: CarStatus, to: Status, others: nat): CarStatus {
    if Physical(to) then Rented
    else if to == Returned then NeedsCleaning
    else if Booked(to) then (if car == Available then Reserved else car)
    else if to in {Cancelled, NoShow, Status.Expired, Completed} && car == Reserved && others == 0 then Available
    else car
  }

  // ---------- The service on a car object ----------

  class Car {
    var status: CarStatus
    var availability: bool
    var isDeleted: bool

    constructor (initial: CarStatus)
      ensures status == initial && availability == (initial == Available) && !isDeleted
    {
      status, availability, isDeleted := initial, initial == Available, false;
    }

    method UpdateCarStatus(next: CarStatus) returns (updated: bool)
      modifies this`status, this`availability
      ensures updated == !isDeleted
      ensures !isDeleted ==> status == next && availability == (next == Available)
      ensures isDeleted ==> status == old(status) && availability == old(availability)
    {
      if isDeleted {
        return false;
      }
      status := next;
      availability := next == Available;
      updated := true;
    }
  }

  /** Syncs a car to a reservation's new status; false when there is no live car to sync. */
  method SyncCarStatusFromReservation(car: Car?, rows: Rows, id: nat, newStatus: Status) returns (synced: bool)
    modifies if car == null then {} else {car}
    ensures synced <==> car != null && !old(car.isDeleted)
    ensures car != null ==> car.isDeleted == old(car.isDeleted)
    ensures synced ==> car.status == Synced(old(car.status), newStatus, |OthersActive(rows, id)|)
    ensures synced && old(car.availability == (car.status == Available)) ==> car.availability == (car.status == Available)
    ensures !synced && car != null ==> car.status == old(car.status) && car.availability == old(car.availability)
  {
    if car == null || car.isDeleted {
      return false;
    }
    var current := car.status;
    if newStatus == PickedUp || newStatus == ActiveRental {
      if current != Rented {
        var _ := car.UpdateCarStatus(Rented);
      }
      return true;
    }
    if newStatus == Returned {
      if current != NeedsCleaning {
        var _ := car.UpdateCarStatus(NeedsCleaning);
      }
      return true;
    }
    if newStatus == Confirmed || newStatus == CarPrepared {
      if current == Available || current == Reserved {
        if current != Reserved {
          var _ := car.UpdateCarStatus(Reserved);
        }
      }
      return true;
    }
    if newStatus == Cancelled || newStatus == NoShow || newStatus == Status.Expired || newStatus == Completed {
      if current == Reserved {
        var activeCount := |OthersActive(rows, id)|;
        if activeCount == 0 {
          var _ := car.UpdateCarStatus(Available);
        }
      }
      return true;
    }
    synced := true;
  }

  // ---------- Agreement of one car with its reservations ----------

  datatype Fleet = Fleet(car: CarStatus, rows: Rows)

  ghost predicate SomePhysical(rows: Rows) {
    exists i :: i in rows && Physical(rows[i])
  }

  ghost predicate SomeBooked(rows: Rows) {
    exists i :: i in rows && Booked(rows[i])
  }

  ghost predicate RentedExact(f: Fleet) {
    f.car == Rented <==> SomePhysical(f.rows)
  }

  ghost predicate AvailableSound(f: Fleet) {
    f.car == Available ==> !SomePhysical(f.rows) && !SomeBooked(f.rows)
  }

  ghost predicate ReservedSound(f: Fleet) {
    f.car == Reserved ==> SomeBooked(f.rows)
  }

  ghost predicate Agrees(f: Fleet) {
    RentedExact(f) && AvailableSound(f) && ReservedSound(f)
  }

  /** A reservation changes status and the car is synced, in one transaction. */
  function Change(f: Fleet, id: nat, to: Status): Fleet {
    Fleet(Synced(f.car, to, |OthersActive(f.rows, id)|), f.rows[id := to])
  }

  predicate ChangeAllowed(f: Fleet, id: nat, to: Status) {
    id in f.rows && Allowed(f.rows[id], to)
  }

  lemma NoOthers(rows: Rows, id: nat)
    ensures |OthersActive(rows, id)| == 0 <==> forall i :: i in rows && i != id ==> !FleetActive(rows[i])
  {
    var others := OthersActive(rows, id);
    if |others| == 0 {
      assert others == {};
      forall i | i in rows && i != id ensures !FleetActive(rows[i]) {
        assert i !in others;
      }
    } else {
      var i :| i in others;
    }
  }

  /** Returning a car while another reservation has it out: the only way to lose the rented clause. */
  ghost predicate ReturnWhileOut(f: Fleet, id: nat, to: Status) {
    to == Returned && exists i :: i in f.rows && i != id && Physical(f.rows[i])
  }

  /** Refunding the last booking of a reserved car: the only way to lose the reserved clause. */
  ghost predicate RefundOfLastBooking(f: Fleet, id: nat, to: Status) {
    to == Refunded && f.car == Reserved && forall i :: i in f.rows && i != id ==> !Booked(f.rows[i])
  }

  /** A status change that is synced keeps the rented clause unless it is a return while out. */
  lemma RentedKept(f: Fleet, id: nat, to: Status)
    requires RentedExact(f) && ChangeAllowed(f, id, to)
    ensures RentedExact(Change(f, id, to)) <==> !ReturnWhileOut(f, id, to)
  {
    var g := Change(f, id, to);
    assert forall i :: i in f.rows && i != id ==> i in g.rows && g.rows[i] == f.rows[i];
    assert g.rows[id] == to;
    NoOthers(f.rows, id);
    if SomePhysical(f.rows) {
      var i :| i in f.rows && Physical(f.rows[i]);
      assert i != id ==> SomePhysical(g.rows);
    }
    if SomePhysical(g.rows) {
      var i :| i in g.rows && Physical(g.rows[i]);
      assert i != id ==> SomePhysical(f.rows);
    }
    if f.car == Rented && !Physical(to) && to != Returned {
      assert Allowed(f.rows[id], to);
    }
  }

  /** An available car never hides an active booking, whatever is changed, refunds included. */
  lemma AvailableKept(f: Fleet, id: nat, to: Status)
    requires AvailableSound(f) && id in f.rows
    ensures AvailableSound(Change(f, id, to))
  {
    var g := Change(f, id, to);
    NoOthers(f.rows, id);
    assert forall i :: i in f.rows && i != id ==> i in g.rows && g.rows[i] == f.rows[i];
    if g.car == Available {
      forall i | i in g.rows ensures !Physical(g.rows[i]) && !Booked(g.rows[i]) {
        if i != id && f.car == Available { assert !FleetActive(f.rows[i]); }
      }
    }
  }

  /** ... and keeps the reserved clause unless it refunds the last booking. */
  lemma ReservedKept(f: Fleet, id: nat, to: Status)
    requires Agrees(f) && ChangeAllowed(f, id, to)
    ensures ReservedSound(Change(f, id, to)) <==> !RefundOfLastBooking(f, id, to)
  {
    var g := Change(f, id, to);
    NoOthers(f.rows, id);
    assert forall i :: i in f.rows && i != id ==> i in g.rows && g.rows[i] == f.rows[i];
    assert g.rows[id] == to;
    if f.car == Reserved {
      var b :| b in f.rows && Booked(f.rows[b]);
      assert !SomePhysical(f.rows);
      if b != id { assert b in g.rows && Booked(g.rows[b]); }
      if SomeBooked(g.rows) {
        var i :| i in g.rows && Booked(g.rows[i]);
      }
    }
  }

  /** The exact condition: a synced change keeps agreement iff it is neither of the two bad moves. */
  lemma AgreementKept(f: Fleet, id: nat, to: Status)
    requires Agrees(f) && ChangeAllowed(f, id, to)
    ensures Agrees(Change(f, id, to)) <==> !ReturnWhileOut(f, id, to) && !RefundOfLastBooking(f, id, to)
  {
    RentedKept(f, id, to);
    AvailableKept(f, id, to);
    ReservedKept(f, id, to);
  }

  /** A staff booking enters as confirmed without a sync: it keeps agreement iff the car is not available. */
  lemma StaffBookingKept(f: Fleet, id: nat)
    requires Agrees(f) && id !in f.rows
    ensures Agrees(Fleet(f.car, f.rows[id := Confirmed])) <==> f.car != Available
  {
    var g := Fleet(f.car, f.rows[id := Confirmed]);
    assert g.rows[id] == Confirmed;
    assert forall i :: i in f.rows ==> i in g.rows && g.rows[i] == f.rows[i];
    if SomePhysical(g.rows) {
      var i :| i in g.rows && Physical(g.rows[i]);
      assert i in f.rows;
    }
    if SomeBooked(f.rows) {
      var i :| i in f.rows && Booked(f.rows[i]);
      assert i in g.rows && Booked(g.rows[i]);
    }
    if SomePhysical(f.rows) {
      var i :| i in f.rows && Physical(f.rows[i]);
      assert i in g.rows && Physical(g.rows[i]);
    }
  }

  /** A payment hold is no fleet matter. */
  lemma HoldKept(f: Fleet, id: nat)
    requires id !in f.rows
    ensures Agrees(Fleet(f.car, f.rows[id := PendingPayment])) <==> Agrees(f)
    ensures AvailableSound(Fleet(f.car, f.rows[id := PendingPayment])) <==> AvailableSound(f)
  {
    var g := Fleet(f.car, f.rows[id := PendingPayment]);
    assert forall i :: i in f.rows ==> i in g.rows && g.rows[i] == f.rows[i];
    forall i | i in g.rows && FleetActive(g.rows[i]) ensures i in f.rows && f.rows[i] == g.rows[i] {}
  }

  // ---------- What a synced change makes of the car ----------

  /** Confirmed, prepared or out with a guest. */
  predicate InUse(s: Status) {
    s in {Confirmed, CarPrepared, PickedUp, ActiveRental}
  }

  /** A return leaves the car to be cleaned, whatever it was. */
  lemma ReturnNeedsCleaning(f: Fleet, id: nat)
    ensures Change(f, id, Returned).car == NeedsCleaning
  {
  }

  /** A handover makes the car rented; a booking reserves a car that was available, and no other. */
  lemma BookingAndHandover(f: Fleet, id: nat, to: Status)
    ensures to == PickedUp || to == ActiveRental ==> Change(f, id, to).car == Rented
    ensures to == Confirmed || to == CarPrepared ==> Change(f, id, to).car == if f.car == Available then Reserved else f.car
  {
  }

  /** When a booking ends, a reserved car is available again iff no reservation in the new table uses it. */
  lemma ReleaseIsExact(f: Fleet, id: nat, to: Status)
    requires f.car == Reserved && id in f.rows && to in {Cancelled, NoShow, Status.Expired, Completed}
    ensures var g := Change(f, id, to);
            && (g.car == Available <==> forall i :: i in g.rows ==> !InUse(g.rows[i]))
            && (g.car != Available ==> g.car == Reserved)
  {
    var g := Change(f, id, to);
    NoOthers(f.rows, id);
    assert g.rows[id] == to && forall i :: i in f.rows && i != id ==> g.rows[i] == f.rows[i];
  }

  /** Every other change leaves the car alone: payment and review, and endings of a car that is not reserved. */
  lemma OtherChangesLeaveTheCar(f: Fleet, id: nat, to: Status)
    requires to in {PendingPayment, ProcessingPayment, Paid, ManualReview, Refunded}
          || (to in {Cancelled, NoShow, Status.Expired, Completed} && f.car != Reserved)
    ensures Change(f, id, to).car == f.car
  {
  }

  /** The table moves that one reservation and no other. */
  lemma ChangeMovesOneRow(f: Fleet, id: nat, to: Status)
    requires id in f.rows
    ensures Change(f, id, to).rows.Keys == f.rows.Keys && Change(f, id, to).rows[id] == to
    ensures forall i :: i in f.rows && i != id ==> Change(f, id, to).rows[i] == f.rows[i]
  {
  }
}
